/**
 * The typed reading of a parsed policy configuration. It yields the policy ids
 * that `overrides` blocks disable and the suppression filters of `processing`
 * blocks. Filters come in two shapes:
 *   - the new shape, `filter { pattern "..." secrets { ... } }`;
 *   - the legacy shape, `kind "pattern" { ... }`.
 * These blocks may sit at top level or inside `policies { profile "x" { ... } }`.
 *
 * Each extractor is specified by a function from the configuration before it
 * to a Result: either the configuration after it, or the error that the
 * source raises when a setting holds the wrong kind of value. A method that
 * updates a `PolicyConfig` is proved against that function.
 */
module Extraction {
  import opened Wrappers
  import opened BlockParser
  import Tokenizer

  datatype Kind = Secrets | Policies | Triaged

  /** The key that names a kind in a block, and the legacy block name. */
  function KeyName(k: Kind): string {
    match k
    case Secrets => "secrets"
    case Policies => "policies"
    case Triaged => "triaged"
  }

  /** The order in which a processing block reads the legacy kinds. */
  function KindRank(k: Kind): nat {
    match k
    case Secrets => 0
    case Policies => 1
    case Triaged => 2
  }

  /** A suppression filter (`Filter`). */
  datatype Filter = Filter(
    enabled: bool,
    matches: string,
    pattern: string,
    reason: string,
    kind: Kind,
    secrets: seq<string>,
    policies: seq<string>,
    cves: seq<string>,
    vexReasons: map<string, string>)

  /** The fields of a `PolicyConfig` object, as a value. */
  datatype ConfigValue = ConfigValue(disabled: set<string>, filters: seq<Filter>)

  const EmptyConfig: ConfigValue := ConfigValue({}, [])

  /** Why reading a configuration fails: a setting holds the wrong kind of value. */
  datatype ConfigError =
    | NotABlock(key: string)         // a profile's `processing` or `overrides` is not a single block
    | LowerOnBlock(key: string)      // an override's `enabled` or a legacy filter's `blocker` is not a string
    | NonStringSetting(key: string)  // a filter's `pattern` or `reason`, or a VEX reason, is not a string

  function ErrorOf<T>(r: Result<T, ConfigError>): Option<ConfigError> {
    if r.Err? then Some(r.error) else None
  }

  /** Extraction only ever adds disabled ids and appends filters. */
  predicate Extends(c: ConfigValue, d: ConfigValue) {
    c.disabled <= d.disabled && c.filters <= d.filters
  }

  // ---------------------------------------------------------------------
  // Reading settings

  /** `str.lower` on the ASCII letters. */
  function LowerChar(c: char): char {
    if 'A' <= c <= 'Z' then (c as int + 32) as char else c
  }

  function Lower(s: string): string {
    if s == [] then [] else [LowerChar(s[0])] + Lower(s[1..])
  }

  /**
   * The elements a loop over `d.get(key, [])` visits. A single block is
   * wrapped in a list. A string is iterated character by character, and no
   * character is a block, so it contributes nothing.
   */
  function ValuesOf(v: Option<Value>): seq<Value> {
    match v
    case Some(Blk(b)) => [Blk(b)]
    case Some(Lst(es)) => es
    case _ => []
  }

  /**
   * `str(f.get("enabled", "true")).lower() != "false"`. The text of a block or
   * of a list starts with a bracket, so only a string can read as "false".
   */
  function EnabledFlag(v: Option<Value>): bool {
    !(v.Some? && v.value.Str? && Lower(v.value.s) == "false")
  }

  /**
   * `f.get("matches", "file")`. A block or a list equals no mode name, so
   * matching on it fails like matching on an unknown mode. It is recorded as
   * the empty mode, which is not a mode name either.
   */
  function MatchesSetting(v: Option<Value>): string {
    match v
    case None => "file"
    case Some(Str(s)) => s
    case Some(_) => ""
  }

  /** A string setting with a default; a block or a list is refused. */
  function StringSetting(f: Block, key: string, default: string): Result<string, ConfigError> {
    match Get(f, key)
    case None => Ok(default)
    case Some(Str(s)) => Ok(s)
    case Some(_) => Err(NonStringSetting(key))
  }

  /** The kind of a new-shape filter, from the keys present: secrets, then policies, then triaged. */
  function KindOf(f: Block): Option<Kind> {
    if Get(f, "secrets").Some? then Some(Secrets)
    else if Get(f, "policies").Some? then Some(Policies)
    else if Get(f, "triaged").Some? then Some(Triaged)
    else None
  }

  // ---------------------------------------------------------------------
  // Building one filter

  predicate IsCveKey(k: string) {
    "CVE-" <= k
  }

  /** The keys of a triaged block that start with "CVE-", in insertion order. */
  function CveKeys(entries: seq<(string, Value)>): seq<string> {
    if entries == [] then []
    else
      var last := entries[|entries| - 1];
      CveKeys(entries[..|entries| - 1]) + (if IsCveKey(last.0) then [last.0] else [])
  }

  /** The VEX reason recorded for each "CVE-" key of a triaged block. */
  function VexOf(entries: seq<(string, Value)>): Result<map<string, string>, ConfigError> {
    if entries == [] then Ok(map[])
    else
      var m :- VexOf(entries[..|entries| - 1]);
      var last := entries[|entries| - 1];
      if !IsCveKey(last.0) then Ok(m)
      else match last.1
        case Str(s) => Ok(m[last.0 := s])
        case _ => Err(NonStringSetting(last.0))
  }

  /** `_populate_filter_items`: the item lists of the nested block of the filter's kind. */
  function Populate(flt: Filter, f: Block): Result<Filter, ConfigError> {
    match (flt.kind, Get(f, KeyName(flt.kind)))
    case (Secrets, Some(Blk(sb))) => Ok(flt.(secrets := sb.items))
    case (Policies, Some(Blk(pb))) => Ok(flt.(policies := pb.items))
    case (Triaged, Some(Blk(tb))) =>
      var vex :- VexOf(tb.entries);
      Ok(flt.(cves := flt.cves + tb.items + CveKeys(tb.entries), vexReasons := flt.vexReasons + vex))
    case _ => Ok(flt)
  }

  /** A filter with the given settings and no items. */
  function Fresh(f: Block, pattern: string, reason: string, kind: Kind): Filter {
    Filter(EnabledFlag(Get(f, "enabled")), MatchesSetting(Get(f, "matches")), pattern, reason, kind,
           [], [], [], map[])
  }

  /** `_extract_filter_block`: a new-shape filter, or none when no kind key is present. */
  function FilterBlock(f: Block): Result<Option<Filter>, ConfigError> {
    match KindOf(f)
    case None => Ok(None)
    case Some(kind) =>
      var pattern :- StringSetting(f, "pattern", "*");
      var reason :- StringSetting(f, "reason", "");
      var full :- Populate(Fresh(f, pattern, reason, kind), f);
      Ok(Some(full))
  }

  /** `blocker.lower() == "pass"`; a missing blocker is "fail". */
  function BlockerPasses(f: Block): Result<bool, ConfigError> {
    match Get(f, "blocker")
    case None => Ok(false)
    case Some(Str(s)) => Ok(Lower(s) == "pass")
    case Some(_) => Err(LowerOnBlock("blocker"))
  }

  /** `_extract_legacy_filter`: the pattern is the block's label, "*" without one. */
  function LegacyFilter(f: Block, kind: Kind): Result<Option<Filter>, ConfigError> {
    var passes :- if kind == Policies then BlockerPasses(f) else Ok(true);
    if !passes then Ok(None)
    else
      var reason :- StringSetting(f, "reason", "");
      var full :- Populate(Fresh(f, f.tag.GetOr("*"), reason, kind), f);
      Ok(Some(full))
  }

  /** The filter read from one element of a filter list; an element that is not a block gives none. */
  function FilterOf(v: Value, legacy: Option<Kind>): Result<Option<Filter>, ConfigError> {
    if !v.Blk? then Ok(None)
    else if legacy.Some? then LegacyFilter(v.b, legacy.value)
    else FilterBlock(v.b)
  }

  function AsSeq(o: Option<Filter>): seq<Filter> {
    if o.Some? then [o.value] else []
  }

  /**
   * The filters a list of filter blocks yields, in order: new-shape ones when
   * legacy is None, legacy ones of that kind otherwise. Elements that are not
   * blocks are skipped.
   */
  function FiltersFrom(vs: seq<Value>, legacy: Option<Kind>): Result<seq<Filter>, ConfigError> {
    if vs == [] then Ok([])
    else
      var fs :- FiltersFrom(vs[..|vs| - 1], legacy);
      var o :- FilterOf(vs[|vs| - 1], legacy);
      Ok(fs + AsSeq(o))
  }

  /** The filters of a processing block: the new shape first, then legacy secrets, policies, triaged. */
  function ProcessingFilters(b: Block): Result<seq<Filter>, ConfigError> {
    var nf :- FiltersFrom(ValuesOf(Get(b, "filter")), None);
    var sf :- FiltersFrom(ValuesOf(Get(b, "secrets")), Some(Secrets));
    var pf :- FiltersFrom(ValuesOf(Get(b, "policies")), Some(Policies));
    var tf :- FiltersFrom(ValuesOf(Get(b, "triaged")), Some(Triaged));
    Ok(nf + sf + pf + tf)
  }

  /** How the four lists make up the filters of a processing block, and which error comes first. */
  lemma ProcessingParts(b: Block)
    ensures var nf, sf, pf, tf := FiltersFrom(ValuesOf(Get(b, "filter")), None),
                                  FiltersFrom(ValuesOf(Get(b, "secrets")), Some(Secrets)),
                                  FiltersFrom(ValuesOf(Get(b, "policies")), Some(Policies)),
                                  FiltersFrom(ValuesOf(Get(b, "triaged")), Some(Triaged));
      ProcessingFilters(b) ==
        if nf.Err? then Err(nf.error)
        else if sf.Err? then Err(sf.error)
        else if pf.Err? then Err(pf.error)
        else if tf.Err? then Err(tf.error)
        else Ok(nf.value + sf.value + pf.value + tf.value)
  {
  }

  /** `_extract_processing_filters(b, config)`. */
  function WithProcessing(c: ConfigValue, b: Block): (r: Result<ConfigValue, ConfigError>)
    ensures r.Ok? ==> Extends(c, r.value) && r.value.disabled == c.disabled
  {
    var fs :- ProcessingFilters(b);
    Ok(c.(filters := c.filters + fs))
  }

  // ---------------------------------------------------------------------
  // Overrides, profiles, the top level

  /** An override entry that disables id: labelled id, non-empty, `enabled` lowercasing to "false". */
  predicate Disables(v: Value, id: string) {
    v.Blk? && id != "" && v.b.tag == Some(id) &&
    Get(v.b, "enabled").Some? && Get(v.b, "enabled").value.Str? && Lower(Get(v.b, "enabled").value.s) == "false"
  }

  /** An override entry whose `enabled` is a block or a list, which `.lower()` cannot handle. */
  predicate EnabledIsNotString(v: Value) {
    v.Blk? && Get(v.b, "enabled").Some? && !Get(v.b, "enabled").value.Str?
  }

  /** The ids that the override entries vs disable. */
  function DisabledIds(vs: seq<Value>): Result<set<string>, ConfigError> {
    if vs == [] then Ok({})
    else
      var ids :- DisabledIds(vs[..|vs| - 1]);
      match vs[|vs| - 1]
      case Blk(p) =>
        (match Get(p, "enabled")
         case None => Ok(ids)
         case Some(Str(s)) =>
           var policyId := p.tag.GetOr("");
           Ok(if Lower(s) == "false" && policyId != "" then ids + {policyId} else ids)
         case Some(_) => Err(LowerOnBlock("enabled")))
      case _ => Ok(ids)
  }

  /**
   * `_extract_overrides(b, config)`: adds exactly the ids that the entries of
   * `policies` disable, and fails exactly when an entry's `enabled` is not a
   * string.
   */
  function WithOverrides(c: ConfigValue, b: Block): (r: Result<ConfigValue, ConfigError>)
    ensures r.Ok? ==> Extends(c, r.value) && r.value.filters == c.filters
    ensures r.Ok? ==> forall id :: id in r.value.disabled <==>
      id in c.disabled || exists k :: 0 <= k < |ValuesOf(Get(b, "policies"))| && Disables(ValuesOf(Get(b, "policies"))[k], id)
    ensures r.Err? <==> exists k :: 0 <= k < |ValuesOf(Get(b, "policies"))| && EnabledIsNotString(ValuesOf(Get(b, "policies"))[k])
  {
    DisabledIdsMembers(ValuesOf(Get(b, "policies")));
    var ids :- DisabledIds(ValuesOf(Get(b, "policies")));
    Ok(c.(disabled := c.disabled + ids))
  }

  /** One profile: its processing block, then its overrides block; either must be a single block. */
  function WithProfile(c: ConfigValue, p: Block): (r: Result<ConfigValue, ConfigError>)
    ensures r.Ok? ==> Extends(c, r.value)
  {
    var c1 :- (match Get(p, "processing")
               case None => Ok(c)
               case Some(Blk(b)) => WithProcessing(c, b)
               case Some(_) => Err(NotABlock("processing")));
    match Get(p, "overrides")
    case None => Ok(c1)
    case Some(Blk(b)) => WithOverrides(c1, b)
    case Some(_) => Err(NotABlock("overrides"))
  }

  /** The profiles in order; elements that are not blocks are skipped. */
  function WithProfiles(c: ConfigValue, vs: seq<Value>): (r: Result<ConfigValue, ConfigError>)
    ensures r.Ok? ==> Extends(c, r.value)
  {
    if vs == [] then Ok(c)
    else
      var c1 :- WithProfiles(c, vs[..|vs| - 1]);
      match vs[|vs| - 1]
      case Blk(p) => WithProfile(c1, p)
      case _ => Ok(c1)
  }

  /** `_extract_from_policies_block(b, config)`. */
  function WithPolicies(c: ConfigValue, b: Block): (r: Result<ConfigValue, ConfigError>)
    ensures r.Ok? ==> Extends(c, r.value)
  {
    WithProfiles(c, ValuesOf(Get(b, "profile")))
  }

  /**
   * The top-level loop from pos. A name followed by `{` opens a block that
   * is parsed. The block is read when the name is policies, processing or
   * overrides, and skipped otherwise. Any other token is passed over.
   */
  function TopLoop(t: seq<string>, pos: nat, c: ConfigValue): (r: Result<ConfigValue, ConfigError>)
    decreases |t| - pos
    ensures r.Ok? ==> Extends(c, r.value)
  {
    if pos >= |t| then Ok(c)
    else if pos + 1 < |t| && t[pos + 1] == "{" then
      var (b, next) := ParseBlockSpec(t, pos + 1);
      var c1 :- (if t[pos] == "policies" then WithPolicies(c, b)
                 else if t[pos] == "processing" then WithProcessing(c, b)
                 else if t[pos] == "overrides" then WithOverrides(c, b)
                 else Ok(c));
      TopLoop(t, next, c1)
    else TopLoop(t, pos + 1, c)
  }

  /** `parse_policy_config(text)`. */
  function ConfigSpec(text: string): Result<ConfigValue, ConfigError> {
    TopLoop(Tokenizer.Texts(Tokenizer.Lex(text)), 0, EmptyConfig)
  }

  // ---------------------------------------------------------------------
  // Properties of filter construction

  /**
   * A new-shape block yields no filter exactly when it has none of the keys
   * secrets, policies and triaged. Otherwise the kind is the first of them
   * present, and the error cases need one of them too.
   */
  lemma FilterBlockKind(f: Block)
    ensures FilterBlock(f) == Ok(None) <==>
      (Get(f, "secrets").None? && Get(f, "policies").None? && Get(f, "triaged").None?)
    ensures FilterBlock(f).Ok? && FilterBlock(f).value.Some? ==>
      FilterBlock(f).value.value.kind ==
        (if Get(f, "secrets").Some? then Secrets else if Get(f, "policies").Some? then Policies else Triaged)
  {
    match KindOf(f)
    case None =>
    case Some(kind) =>
      var r := FilterBlock(f);
      if r.Ok? {
        var full := Populate(Fresh(f, StringSetting(f, "pattern", "*").value, StringSetting(f, "reason", "").value, kind), f);
        assert r.value == Some(full.value);
        assert full.value.kind == kind;
      }
  }

  /** A new-shape filter carries the settings read from its block. */
  lemma FilterBlockSettings(f: Block)
    requires FilterBlock(f).Ok? && FilterBlock(f).value.Some?
    ensures var flt := FilterBlock(f).value.value;
      flt.enabled == EnabledFlag(Get(f, "enabled")) && flt.matches == MatchesSetting(Get(f, "matches")) &&
      flt.pattern == StringSetting(f, "pattern", "*").value && flt.reason == StringSetting(f, "reason", "").value
  {
    var kind := KindOf(f).value;
    var flt := Fresh(f, StringSetting(f, "pattern", "*").value, StringSetting(f, "reason", "").value, kind);
    PopulateItems(flt, f);
    assert FilterBlock(f).value == Some(Populate(flt, f).value);
  }

  /**
   * The defaults of a new-shape filter: enabled unless `enabled` lowercases to
   * "false"; mode "file"; pattern "*"; reason "". A present string pattern is
   * taken as written. A secrets or policies key without a pattern or reason
   * gives a filter.
   */
  lemma FilterBlockDefaults(f: Block)
    ensures FilterBlock(f).Ok? && FilterBlock(f).value.Some? ==>
      var flt := FilterBlock(f).value.value;
      (flt.enabled <==> !(Get(f, "enabled").Some? && Get(f, "enabled").value.Str? &&
                          Lower(Get(f, "enabled").value.s) == "false")) &&
      (Get(f, "matches").None? ==> flt.matches == "file") &&
      (Get(f, "pattern").None? ==> flt.pattern == "*") &&
      (Get(f, "reason").None? ==> flt.reason == "") &&
      (Get(f, "pattern").Some? && Get(f, "pattern").value.Str? ==> flt.pattern == Get(f, "pattern").value.s)
    ensures KindOf(f).Some? && KindOf(f) != Some(Triaged) && Get(f, "pattern").None? && Get(f, "reason").None? ==>
      FilterBlock(f).Ok? && FilterBlock(f).value.Some?
  {
    if FilterBlock(f).Ok? && FilterBlock(f).value.Some? {
      FilterBlockSettings(f);
    }
  }

  /**
   * A legacy filter takes its pattern from the block's label ("*" without
   * one) and its kind from the block's name. A legacy policies block yields
   * a filter only when `blocker` lowercases to "pass", never without a
   * blocker. A legacy secrets block without a reason always yields one.
   */
  lemma LegacyFilterProps(f: Block, kind: Kind)
    ensures LegacyFilter(f, kind).Ok? && LegacyFilter(f, kind).value.Some? ==>
      LegacyFilter(f, kind).value.value.pattern == f.tag.GetOr("*") &&
      LegacyFilter(f, kind).value.value.kind == kind
    ensures kind == Policies && LegacyFilter(f, kind).Ok? && LegacyFilter(f, kind).value.Some? ==>
      Get(f, "blocker").Some? && Get(f, "blocker").value.Str? && Lower(Get(f, "blocker").value.s) == "pass"
    ensures kind == Policies && Get(f, "blocker").None? ==> LegacyFilter(f, kind) == Ok(None)
    ensures kind == Secrets && Get(f, "reason").None? ==>
      LegacyFilter(f, kind).Ok? && LegacyFilter(f, kind).value.Some?
  {
    var r := LegacyFilter(f, kind);
    if r.Ok? && r.value.Some? {
      var reason := StringSetting(f, "reason", "").value;
      var full := Populate(Fresh(f, f.tag.GetOr("*"), reason, kind), f);
      assert r.value == Some(full.value);
      assert full.value.pattern == f.tag.GetOr("*") && full.value.kind == kind;
    }
  }

  /** Every filter of fs has the kind `kind`. */
  predicate OfKind(fs: seq<Filter>, kind: Kind) {
    forall i :: 0 <= i < |fs| ==> fs[i].kind == kind
  }

  /** Legacy filters all carry the kind they were read as. */
  lemma {:induction false} LegacyKinds(vs: seq<Value>, kind: Kind)
    ensures FiltersFrom(vs, Some(kind)).Ok? ==> OfKind(FiltersFrom(vs, Some(kind)).value, kind)
  {
    if vs != [] && FiltersFrom(vs, Some(kind)).Ok? {
      LegacyKinds(vs[..|vs| - 1], kind);
      match vs[|vs| - 1]
      case Blk(f) =>
        LegacyFilterProps(f, kind);
      case _ =>
    }
  }

  /** From index k on, the filters of fs are in kind order: secrets, policies, triaged. */
  predicate RankedFrom(fs: seq<Filter>, k: nat) {
    forall i, j :: k <= i < j < |fs| ==> KindRank(fs[i].kind) <= KindRank(fs[j].kind)
  }

  /** Filters of one kind each, concatenated in kind order, are ordered by kind. */
  lemma RankedConcat(sf: seq<Filter>, pf: seq<Filter>, tf: seq<Filter>)
    requires OfKind(sf, Secrets) && OfKind(pf, Policies) && OfKind(tf, Triaged)
    ensures RankedFrom(sf + pf + tf, 0)
  {
    var ls := sf + pf + tf;
    forall i | 0 <= i < |ls|
      ensures KindRank(ls[i].kind) == (if i < |sf| then 0 else if i < |sf| + |pf| then 1 else 2)
    {
      if i < |sf| {
        assert ls[i] == sf[i];
      } else if i < |sf| + |pf| {
        assert ls[i] == pf[i - |sf|];
      } else {
        assert ls[i] == tf[i - |sf| - |pf|];
      }
    }
  }

  lemma PrefixThenRanked(nf: seq<Filter>, ls: seq<Filter>)
    requires RankedFrom(ls, 0)
    ensures nf <= nf + ls
    ensures RankedFrom(nf + ls, |nf|)
  {
    forall i, j | |nf| <= i < j < |nf + ls|
      ensures KindRank((nf + ls)[i].kind) <= KindRank((nf + ls)[j].kind)
    {
      assert (nf + ls)[i] == ls[i - |nf|] && (nf + ls)[j] == ls[j - |nf|];
    }
  }

  /**
   * A processing block lists its new-shape filters first, in source order.
   * The legacy ones follow, secrets before policies before triaged.
   */
  lemma ProcessingOrder(b: Block)
    ensures ProcessingFilters(b).Ok? ==>
      FiltersFrom(ValuesOf(Get(b, "filter")), None).Ok? &&
      FiltersFrom(ValuesOf(Get(b, "filter")), None).value <= ProcessingFilters(b).value &&
      RankedFrom(ProcessingFilters(b).value, |FiltersFrom(ValuesOf(Get(b, "filter")), None).value|)
  {
    ProcessingParts(b);
    if ProcessingFilters(b).Ok? {
      var nf := FiltersFrom(ValuesOf(Get(b, "filter")), None).value;
      var sf := FiltersFrom(ValuesOf(Get(b, "secrets")), Some(Secrets)).value;
      var pf := FiltersFrom(ValuesOf(Get(b, "policies")), Some(Policies)).value;
      var tf := FiltersFrom(ValuesOf(Get(b, "triaged")), Some(Triaged)).value;
      assert ProcessingFilters(b).value == nf + sf + pf + tf;
      LegacyKinds(ValuesOf(Get(b, "secrets")), Secrets);
      LegacyKinds(ValuesOf(Get(b, "policies")), Policies);
      LegacyKinds(ValuesOf(Get(b, "triaged")), Triaged);
      NewShapeThenLegacy(nf, sf, pf, tf);
    }
  }

  lemma NewShapeThenLegacy(nf: seq<Filter>, sf: seq<Filter>, pf: seq<Filter>, tf: seq<Filter>)
    requires OfKind(sf, Secrets) && OfKind(pf, Policies) && OfKind(tf, Triaged)
    ensures nf <= nf + sf + pf + tf && RankedFrom(nf + sf + pf + tf, |nf|)
  {
    RankedConcat(sf, pf, tf);
    PrefixThenRanked(nf, sf + pf + tf);
    assert nf + sf + pf + tf == nf + (sf + pf + tf);
  }

  // ---------------------------------------------------------------------
  // Properties of the triaged population

  /** The "CVE-" keys are exactly the block's keys that start with "CVE-". */
  lemma {:induction false} CveKeysMembers(entries: seq<(string, Value)>)
    ensures forall k :: k in CveKeys(entries) <==> IsCveKey(k) && exists i :: 0 <= i < |entries| && entries[i].0 == k
  {
    if entries != [] {
      var pre := entries[..|entries| - 1];
      CveKeysMembers(pre);
      assert forall i :: 0 <= i < |pre| ==> pre[i] == entries[i];
    }
  }

  /**
   * Every "CVE-" key gets a VEX reason, which is the string stored under it.
   * Other keys get none. Reading fails exactly when a "CVE-" key holds a
   * block or a list.
   */
  lemma {:induction false} VexOfSpec(entries: seq<(string, Value)>)
    requires UniqueKeys(entries)
    ensures VexOf(entries).Ok? ==> forall k :: k in VexOf(entries).value <==> k in CveKeys(entries)
    ensures VexOf(entries).Ok? ==> forall i :: 0 <= i < |entries| && IsCveKey(entries[i].0) ==>
      entries[i].0 in VexOf(entries).value && entries[i].1 == Str(VexOf(entries).value[entries[i].0])
    ensures VexOf(entries).Err? <==> exists i :: 0 <= i < |entries| && IsCveKey(entries[i].0) && !entries[i].1.Str?
  {
    if entries != [] {
      var pre := entries[..|entries| - 1];
      var last := entries[|entries| - 1];
      assert forall i :: 0 <= i < |pre| ==> pre[i] == entries[i];
      VexOfSpec(pre);
      if VexOf(entries).Ok? && IsCveKey(last.0) {
        forall i | 0 <= i < |pre|
          ensures pre[i].0 != last.0
        {
          assert entries[i].0 != entries[|entries| - 1].0;
        }
      }
    }
  }

  /**
   * Populating a filter of each kind. A secrets or policies filter takes the
   * items of the nested block of its kind. A triaged filter appends the
   * items and then every "CVE-" key, and records each key's VEX reason.
   * A nested value that is not a block leaves the filter empty.
   */
  lemma PopulateItems(flt: Filter, f: Block)
    requires Populate(flt, f).Ok?
    ensures var r := Populate(flt, f).value;
      r.kind == flt.kind && r.pattern == flt.pattern && r.reason == flt.reason &&
      r.enabled == flt.enabled && r.matches == flt.matches
    ensures flt.kind == Secrets ==>
      Populate(flt, f).value.secrets == (match Get(f, "secrets") case Some(Blk(sb)) => sb.items case _ => flt.secrets)
    ensures flt.kind == Policies ==>
      Populate(flt, f).value.policies == (match Get(f, "policies") case Some(Blk(pb)) => pb.items case _ => flt.policies)
    ensures forall tb :: flt.kind == Triaged && Get(f, "triaged") == Some(Blk(tb)) ==>
      Populate(flt, f).value.cves == flt.cves + tb.items + CveKeys(tb.entries) &&
      Populate(flt, f).value.vexReasons == flt.vexReasons + VexOf(tb.entries).value
  {
  }

  /** A new triaged filter records a VEX reason for exactly its "CVE-" keys, not for bare items. */
  lemma TriagedFilterVex(f: Block, tb: Block)
    requires KindOf(f) == Some(Triaged) && Get(f, "triaged") == Some(Blk(tb)) && UniqueKeys(tb.entries)
    requires FilterBlock(f).Ok?
    ensures FilterBlock(f).value.Some?
    ensures FilterBlock(f).value.value.cves == tb.items + CveKeys(tb.entries)
    ensures forall k :: k in FilterBlock(f).value.value.vexReasons <==> k in CveKeys(tb.entries)
    ensures forall i :: 0 <= i < |tb.entries| && IsCveKey(tb.entries[i].0) ==>
      tb.entries[i].0 in FilterBlock(f).value.value.vexReasons &&
      tb.entries[i].1 == Str(FilterBlock(f).value.value.vexReasons[tb.entries[i].0])
  {
    TriagedFilterFields(f, tb);
    VexOfSpec(tb.entries);
  }

  lemma TriagedFilterFields(f: Block, tb: Block)
    requires KindOf(f) == Some(Triaged) && Get(f, "triaged") == Some(Blk(tb))
    requires FilterBlock(f).Ok?
    ensures FilterBlock(f).value.Some? && VexOf(tb.entries).Ok?
    ensures FilterBlock(f).value.value.cves == tb.items + CveKeys(tb.entries)
    ensures FilterBlock(f).value.value.vexReasons == VexOf(tb.entries).value
  {
    var flt := Fresh(f, StringSetting(f, "pattern", "*").value, StringSetting(f, "reason", "").value, Triaged);
    assert FilterBlock(f) == Ok(Some(Populate(flt, f).value));
    PopulateTriaged(flt, f, tb);
  }

  lemma PopulateTriaged(flt: Filter, f: Block, tb: Block)
    requires flt.kind == Triaged && Get(f, "triaged") == Some(Blk(tb)) && flt.cves == [] && flt.vexReasons == map[]
    requires Populate(flt, f).Ok?
    ensures VexOf(tb.entries).Ok?
    ensures Populate(flt, f).value.cves == tb.items + CveKeys(tb.entries)
    ensures Populate(flt, f).value.vexReasons == VexOf(tb.entries).value
  {
    assert [] + tb.items + CveKeys(tb.entries) == tb.items + CveKeys(tb.entries);
    assert map[] + VexOf(tb.entries).value == VexOf(tb.entries).value;
  }



  // ---------------------------------------------------------------------
  // Properties of overrides

  /**
   * The override entries disable exactly the ids of the entries that are
   * labelled, non-empty and have `enabled` lowercasing to "false". A missing
   * `enabled` never disables. Reading fails exactly when an entry's
   * `enabled` is not a string.
   */
  lemma DisabledIdsMembers(vs: seq<Value>)
    ensures DisabledIds(vs).Ok? ==>
      forall id :: id in DisabledIds(vs).value <==> exists k :: 0 <= k < |vs| && Disables(vs[k], id)
    ensures DisabledIds(vs).Err? <==> exists k :: 0 <= k < |vs| && EnabledIsNotString(vs[k])
  {
    DisabledIdsOk(vs);
    DisabledIdsErr(vs);
  }

  lemma {:induction false} DisabledIdsOk(vs: seq<Value>)
    ensures DisabledIds(vs).Ok? ==>
      forall id :: id in DisabledIds(vs).value <==> exists k :: 0 <= k < |vs| && Disables(vs[k], id)
  {
    if vs != [] {
      var pre := vs[..|vs| - 1];
      assert forall k :: 0 <= k < |pre| ==> pre[k] == vs[k];
      DisabledIdsOk(pre);
    }
  }

  lemma {:induction false} DisabledIdsErr(vs: seq<Value>)
    ensures DisabledIds(vs).Err? <==> exists k :: 0 <= k < |vs| && EnabledIsNotString(vs[k])
  {
    if vs != [] {
      var pre := vs[..|vs| - 1];
      assert forall k :: 0 <= k < |pre| ==> pre[k] == vs[k];
      DisabledIdsErr(pre);
    }
  }


  /** The override entries of a profile: the `policies` of its `overrides` block. */
  function ProfileOverrides(p: Value): seq<Value> {
    match p
    case Blk(pb) =>
      (match Get(pb, "overrides")
       case Some(Blk(o)) => ValuesOf(Get(o, "policies"))
       case _ => [])
    case _ => []
  }

  predicate ProfileDisables(p: Value, id: string) {
    exists j :: 0 <= j < |ProfileOverrides(p)| && Disables(ProfileOverrides(p)[j], id)
  }

  /**
   * Inside `policies { profile ... }`, the disabled ids after reading are
   * those before plus those that some profile's overrides disable.
   * Processing blocks add none.
   */
  lemma {:induction false} WithProfilesDisabled(c: ConfigValue, vs: seq<Value>)
    requires WithProfiles(c, vs).Ok?
    ensures forall id :: id in WithProfiles(c, vs).value.disabled <==>
      id in c.disabled || exists k :: 0 <= k < |vs| && ProfileDisables(vs[k], id)
  {
    if vs != [] {
      var pre := vs[..|vs| - 1];
      var last := vs[|vs| - 1];
      assert forall k :: 0 <= k < |pre| ==> pre[k] == vs[k];
      assert vs == pre + [last];
      WithProfilesStep(c, vs, |vs| - 1);
      WithProfilesDisabled(c, pre);
      if last.Blk? {
        WithProfileDisabled(WithProfiles(c, pre).value, last.b);
      }
    }
  }

  /** One profile disables, on top of what was disabled before, the ids its overrides disable. */
  lemma WithProfileDisabled(c: ConfigValue, p: Block)
    requires WithProfile(c, p).Ok?
    ensures forall id :: id in WithProfile(c, p).value.disabled <==> id in c.disabled || ProfileDisables(Blk(p), id)
  {
    var c1 := (match Get(p, "processing")
               case None => Ok(c)
               case Some(Blk(b)) => WithProcessing(c, b)
               case Some(_) => Err(NotABlock("processing"))).value;
    assert c1.disabled == c.disabled;
    DisabledIdsMembers(ProfileOverrides(Blk(p)));
  }


  /** The entries of a top-level `overrides` block at pos. */
  function TopOverrides(t: seq<string>, pos: nat): seq<Value>
    requires pos + 1 < |t|
  {
    ValuesOf(Get(ParseBlockSpec(t, pos + 1).0, "policies"))
  }

  /**
   * A top-level `overrides` block: reading it adds to the disabled ids
   * exactly those that its entries disable (labelled, non-empty, `enabled`
   * lowercasing to "false"), keeps the filters, and parsing then continues
   * after the block. So such an id ends up disabled in the final
   * configuration.
   */
  lemma OverridesAtTopLevel(t: seq<string>, pos: nat, c: ConfigValue)
    requires pos + 1 < |t| && t[pos] == "overrides" && t[pos + 1] == "{"
    requires TopLoop(t, pos, c).Ok?
    ensures WithOverrides(c, ParseBlockSpec(t, pos + 1).0).Ok?
    ensures var c1 := WithOverrides(c, ParseBlockSpec(t, pos + 1).0).value;
      c1.filters == c.filters &&
      (forall id :: id in c1.disabled <==>
        id in c.disabled || exists j :: 0 <= j < |TopOverrides(t, pos)| && Disables(TopOverrides(t, pos)[j], id)) &&
      TopLoop(t, pos, c) == TopLoop(t, ParseBlockSpec(t, pos + 1).1, c1)
    ensures forall id, j :: 0 <= j < |TopOverrides(t, pos)| && Disables(TopOverrides(t, pos)[j], id) ==>
      id in TopLoop(t, pos, c).value.disabled
  {
    var (b, next) := ParseBlockSpec(t, pos + 1);
    assert TopOverrides(t, pos) == ValuesOf(Get(b, "policies"));
    var c1 := WithOverrides(c, b).value;
    assert TopLoop(t, pos, c) == TopLoop(t, next, c1);
  }

  // ---------------------------------------------------------------------
  // The PolicyConfig object and the extractors that update it

  class PolicyConfig {
    var disabledPolicies: set<string>
    var filters: seq<Filter>

    constructor()
      ensures disabledPolicies == {} && filters == []
    {
      disabledPolicies := {};
      filters := [];
    }

    function Value(): ConfigValue
      reads this
    {
      ConfigValue(disabledPolicies, filters)
    }

    /** `config.filters.append(f)`. */
    method AddFilter(f: Filter)
      modifies this
      ensures filters == old(filters) + [f] && disabledPolicies == old(disabledPolicies)
    {
      filters := filters + [f];
    }

    /** `config.disabled_policies.add(id)`. */
    method Disable(id: string)
      modifies this
      ensures disabledPolicies == old(disabledPolicies) + {id} && filters == old(filters)
    {
      disabledPolicies := disabledPolicies + {id};
    }
  }

  lemma {:induction false} VexOfErrorPersists(entries: seq<(string, Value)>, k: nat)
    requires k <= |entries| && VexOf(entries[..k]).Err?
    ensures VexOf(entries) == Err(VexOf(entries[..k]).error)
  {
    if k < |entries| {
      var pre := entries[..|entries| - 1];
      assert pre[..k] == entries[..k];
      VexOfErrorPersists(pre, k);
    } else {
      assert entries[..k] == entries;
    }
  }

  /** `_populate_filter_items`: the loops that append the triaged items and "CVE-" keys. */
  /** `for cve in items: filt.cves.append(cve)`. */
  method AppendItems(cves0: seq<string>, items: seq<string>) returns (cves: seq<string>)
    ensures cves == cves0 + items
  {
    cves := cves0;
    var i := 0;
    while i < |items|
      invariant 0 <= i <= |items|
      invariant cves == cves0 + items[..i]
    {
      cves := cves + [items[i]];
      assert items[..i + 1] == items[..i] + [items[i]];
      i := i + 1;
    }
    assert items[..|items|] == items;
  }

  /** The loop over a triaged block's entries: each `CVE-` key and its VEX reason. */
  method ScanTriagedEntries(entries: seq<(string, Value)>) returns (keys: seq<string>, vex: map<string, string>, err: Option<ConfigError>)
    ensures err == ErrorOf(VexOf(entries))
    ensures err.None? ==> keys == CveKeys(entries) && vex == VexOf(entries).value
  {
    keys, vex := [], map[];
    var k := 0;
    while k < |entries|
      invariant 0 <= k <= |entries|
      invariant VexOf(entries[..k]) == Ok(vex)
      invariant keys == CveKeys(entries[..k])
    {
      var entry := entries[k];
      assert entries[..k + 1][..k] == entries[..k] && entries[..k + 1][k] == entry;
      if IsCveKey(entry.0) {
        match entry.1 {
          case Str(s) =>
            keys := keys + [entry.0];
            vex := vex[entry.0 := s];
          case _ =>
            VexOfErrorPersists(entries, k + 1);
            return keys, vex, Some(NonStringSetting(entry.0));
        }
      }
      k := k + 1;
    }
    assert entries[..|entries|] == entries;
    err := None;
  }

  method PopulateFilterItems(flt: Filter, f: Block) returns (r: Result<Filter, ConfigError>)
    ensures r == Populate(flt, f)
  {
    var nested := Get(f, KeyName(flt.kind));
    if !(nested.Some? && nested.value.Blk?) {
      return Ok(flt);
    }
    var nb := nested.value.b;
    if flt.kind == Secrets {
      return Ok(flt.(secrets := nb.items));
    } else if flt.kind == Policies {
      return Ok(flt.(policies := nb.items));
    }
    var cves := AppendItems(flt.cves, nb.items);
    var keys, vex, err := ScanTriagedEntries(nb.entries);
    if err.Some? {
      return Err(err.value);
    }
    r := Ok(flt.(cves := cves + keys, vexReasons := flt.vexReasons + vex));
  }

  /** `_extract_filter_block`. */
  method ExtractFilterBlock(f: Block) returns (r: Result<Option<Filter>, ConfigError>)
    ensures r == FilterBlock(f)
  {
    var kind := KindOf(f);
    if kind.None? {
      return Ok(None);
    }
    var pattern := StringSetting(f, "pattern", "*");
    if pattern.Err? {
      return Err(pattern.error);
    }
    var reason := StringSetting(f, "reason", "");
    if reason.Err? {
      return Err(reason.error);
    }
    var full := PopulateFilterItems(Fresh(f, pattern.value, reason.value, kind.value), f);
    if full.Err? {
      return Err(full.error);
    }
    r := Ok(Some(full.value));
  }

  /** `_extract_legacy_filter`. */
  method ExtractLegacyFilter(f: Block, kind: Kind) returns (r: Result<Option<Filter>, ConfigError>)
    ensures r == LegacyFilter(f, kind)
  {
    if kind == Policies {
      var passes := BlockerPasses(f);
      if passes.Err? {
        return Err(passes.error);
      }
      if !passes.value {
        return Ok(None);
      }
    }
    var reason := StringSetting(f, "reason", "");
    if reason.Err? {
      return Err(reason.error);
    }
    var full := PopulateFilterItems(Fresh(f, f.tag.GetOr("*"), reason.value, kind), f);
    if full.Err? {
      return Err(full.error);
    }
    r := Ok(Some(full.value));
  }

  lemma {:induction false} FiltersFromErrorPersists(vs: seq<Value>, legacy: Option<Kind>, k: nat)
    requires k <= |vs| && FiltersFrom(vs[..k], legacy).Err?
    ensures FiltersFrom(vs, legacy) == Err(FiltersFrom(vs[..k], legacy).error)
  {
    if k < |vs| {
      var pre := vs[..|vs| - 1];
      assert pre[..k] == vs[..k];
      FiltersFromErrorPersists(pre, legacy, k);
    } else {
      assert vs[..k] == vs;
    }
  }

  /** One loop of `_extract_processing_filters`: appends the filters of the blocks vs. */
  method AppendFilters(vs: seq<Value>, legacy: Option<Kind>, config: PolicyConfig) returns (err: Option<ConfigError>)
    modifies config
    ensures err == ErrorOf(FiltersFrom(vs, legacy))
    ensures err.None? ==> config.filters == old(config.filters) + FiltersFrom(vs, legacy).value
    ensures config.disabledPolicies == old(config.disabledPolicies)
  {
    var k := 0;
    ghost var fs: seq<Filter> := [];
    ghost var f0, d0 := config.filters, config.disabledPolicies;
    while k < |vs|
      invariant 0 <= k <= |vs|
      invariant FiltersFrom(vs[..k], legacy) == Ok(fs)
      invariant config.filters == f0 + fs
      invariant config.disabledPolicies == d0
    {
      ghost var before := config.filters;
      err := AppendOne(vs[k], legacy, config);
      FiltersFromStep(vs, legacy, k);
      if err.Some? {
        FiltersFromErrorPersists(vs, legacy, k + 1);
        return;
      }
      ghost var added := AsSeq(FilterOf(vs[k], legacy).value);
      assert f0 + (fs + added) == before + added;
      fs := fs + added;
      k := k + 1;
    }
    assert vs[..|vs|] == vs;
    err := None;
  }

  /** The body of a filter loop: a block is read as a filter, which is appended when there is one. */
  method AppendOne(v: Value, legacy: Option<Kind>, config: PolicyConfig) returns (err: Option<ConfigError>)
    modifies config
    ensures err == ErrorOf(FilterOf(v, legacy))
    ensures err.None? ==> config.filters == old(config.filters) + AsSeq(FilterOf(v, legacy).value)
    ensures err.Some? ==> config.filters == old(config.filters)
    ensures config.disabledPolicies == old(config.disabledPolicies)
  {
    err := None;
    if v.Blk? {
      var r := ExtractEither(v.b, legacy);
      if r.Err? {
        return Some(r.error);
      }
      if r.value.Some? {
        config.AddFilter(r.value.value);
      }
    }
  }

  /** One more value read by `FiltersFrom`: its filter, if any, is appended, and an error stops the reading. */
  lemma FiltersFromStep(vs: seq<Value>, legacy: Option<Kind>, k: nat)
    requires k < |vs| && FiltersFrom(vs[..k], legacy).Ok?
    ensures FiltersFrom(vs[..k + 1], legacy) ==
      if FilterOf(vs[k], legacy).Err? then Err(FilterOf(vs[k], legacy).error)
      else Ok(FiltersFrom(vs[..k], legacy).value + AsSeq(FilterOf(vs[k], legacy).value))
  {
    assert vs[..k + 1][..k] == vs[..k] && vs[..k + 1][k] == vs[k];
    var fs := FiltersFrom(vs[..k], legacy).value;
    assert fs + [] == fs;
  }

  /** A filter block read in the new shape, or in the legacy shape of the given kind. */
  method ExtractEither(f: Block, legacy: Option<Kind>) returns (r: Result<Option<Filter>, ConfigError>)
    ensures r == if legacy.Some? then LegacyFilter(f, legacy.value) else FilterBlock(f)
  {
    if legacy.Some? {
      r := ExtractLegacyFilter(f, legacy.value);
    } else {
      r := ExtractFilterBlock(f);
    }
  }

  method ExtractProcessingFilters(block: Block, config: PolicyConfig) returns (err: Option<ConfigError>)
    modifies config
    ensures err == ErrorOf(WithProcessing(old(config.Value()), block))
    ensures err.None? ==> config.Value() == WithProcessing(old(config.Value()), block).value
  {
    ProcessingParts(block);
    ghost var nf := FiltersFrom(ValuesOf(Get(block, "filter")), None);
    ghost var sf := FiltersFrom(ValuesOf(Get(block, "secrets")), Some(Secrets));
    ghost var pf := FiltersFrom(ValuesOf(Get(block, "policies")), Some(Policies));
    ghost var tf := FiltersFrom(ValuesOf(Get(block, "triaged")), Some(Triaged));
    ghost var f0 := config.filters;
    err := AppendFilters(ValuesOf(Get(block, "filter")), None, config);
    if err.Some? {
      return;
    }
    ghost var f1 := config.filters;
    err := AppendFilters(ValuesOf(Get(block, "secrets")), Some(Secrets), config);
    if err.Some? {
      return;
    }
    ghost var f2 := config.filters;
    err := AppendFilters(ValuesOf(Get(block, "policies")), Some(Policies), config);
    if err.Some? {
      return;
    }
    ghost var f3 := config.filters;
    err := AppendFilters(ValuesOf(Get(block, "triaged")), Some(Triaged), config);
    if err.None? {
      AppendFour(f0, nf.value, sf.value, pf.value, tf.value, f1, f2, f3, config.filters);
    }
  }

  /** Four appends in a row append the four lists joined; kept apart to keep the extractor's proof small. */
  lemma AppendFour(f0: seq<Filter>, a: seq<Filter>, b: seq<Filter>, c: seq<Filter>, d: seq<Filter>,
                   f1: seq<Filter>, f2: seq<Filter>, f3: seq<Filter>, f4: seq<Filter>)
    requires f1 == f0 + a && f2 == f1 + b && f3 == f2 + c && f4 == f3 + d
    ensures f4 == f0 + (a + b + c + d)
  {
  }

  lemma {:induction false} DisabledIdsErrorPersists(vs: seq<Value>, k: nat)
    requires k <= |vs| && DisabledIds(vs[..k]).Err?
    ensures DisabledIds(vs) == Err(DisabledIds(vs[..k]).error)
  {
    if k < |vs| {
      var pre := vs[..|vs| - 1];
      assert pre[..k] == vs[..k];
      DisabledIdsErrorPersists(pre, k);
    } else {
      assert vs[..k] == vs;
    }
  }

  /** `_extract_overrides`: disables each labelled entry whose `enabled` lowercases to "false". */
  method ExtractOverrides(block: Block, config: PolicyConfig) returns (err: Option<ConfigError>)
    modifies config
    ensures err == ErrorOf(WithOverrides(old(config.Value()), block))
    ensures err.None? ==> config.Value() == WithOverrides(old(config.Value()), block).value
  {
    var vs := ValuesOf(Get(block, "policies"));
    ghost var d0, f0 := config.disabledPolicies, config.filters;
    ghost var ids: set<string> := {};
    var k := 0;
    while k < |vs|
      invariant 0 <= k <= |vs|
      invariant DisabledIds(vs[..k]) == Ok(ids)
      invariant config.disabledPolicies == d0 + ids
      invariant config.filters == f0
    {
      DisabledIdsStep(vs, k);
      if vs[k].Blk? {
        var p := vs[k].b;
        var enabled := Get(p, "enabled").GetOr(Str("true"));
        if !enabled.Str? {
          DisabledIdsErrorPersists(vs, k + 1);
          return Some(LowerOnBlock("enabled"));
        }
        if Lower(enabled.s) == "false" {
          var policyId := p.tag.GetOr("");
          if policyId != "" {
            config.Disable(policyId);
            ids := ids + {policyId};
          }
        }
      }
      k := k + 1;
    }
    assert vs[..|vs|] == vs;
    err := None;
  }

  /** One more override entry: a block may add its label, or fail on a non-string `enabled`. */
  lemma DisabledIdsStep(vs: seq<Value>, k: nat)
    requires k < |vs| && DisabledIds(vs[..k]).Ok?
    ensures !vs[k].Blk? ==> DisabledIds(vs[..k + 1]) == DisabledIds(vs[..k])
    ensures vs[k].Blk? ==>
      var e := Get(vs[k].b, "enabled").GetOr(Str("true"));
      var policyId := vs[k].b.tag.GetOr("");
      DisabledIds(vs[..k + 1]) ==
        if !e.Str? then Err(LowerOnBlock("enabled"))
        else if Lower(e.s) == "false" && policyId != "" then Ok(DisabledIds(vs[..k]).value + {policyId})
        else DisabledIds(vs[..k])
  {
    assert vs[..k + 1][..k] == vs[..k] && vs[..k + 1][k] == vs[k];
    if vs[k].Blk? && Get(vs[k].b, "enabled").None? {
      assert Lower("true") == "true";
    }
  }


  lemma {:induction false} WithProfilesErrorPersists(c: ConfigValue, vs: seq<Value>, k: nat)
    requires k <= |vs| && WithProfiles(c, vs[..k]).Err?
    ensures WithProfiles(c, vs) == Err(WithProfiles(c, vs[..k]).error)
  {
    if k < |vs| {
      var pre := vs[..|vs| - 1];
      assert pre[..k] == vs[..k];
      WithProfilesErrorPersists(c, pre, k);
    } else {
      assert vs[..k] == vs;
    }
  }

  /** The body of the profile loop: the profile's processing block, then its overrides block. */
  method ExtractProfile(p: Block, config: PolicyConfig) returns (err: Option<ConfigError>)
    modifies config
    ensures err == ErrorOf(WithProfile(old(config.Value()), p))
    ensures err.None? ==> config.Value() == WithProfile(old(config.Value()), p).value
  {
    match Get(p, "processing") {
      case None =>
      case Some(Blk(b)) =>
        err := ExtractProcessingFilters(b, config);
        if err.Some? {
          return;
        }
      case Some(_) =>
        return Some(NotABlock("processing"));
    }
    match Get(p, "overrides") {
      case None =>
        err := None;
      case Some(Blk(b)) =>
        err := ExtractOverrides(b, config);
      case Some(_) =>
        err := Some(NotABlock("overrides"));
    }
  }

  /** `_extract_from_policies_block`: the profiles in order; elements that are not blocks are skipped. */
  method ExtractFromPoliciesBlock(block: Block, config: PolicyConfig) returns (err: Option<ConfigError>)
    modifies config
    ensures err == ErrorOf(WithPolicies(old(config.Value()), block))
    ensures err.None? ==> config.Value() == WithPolicies(old(config.Value()), block).value
  {
    var vs := ValuesOf(Get(block, "profile"));
    ghost var c0 := config.Value();
    var k := 0;
    while k < |vs|
      invariant 0 <= k <= |vs|
      invariant WithProfiles(c0, vs[..k]) == Ok(config.Value())
    {
      WithProfilesStep(c0, vs, k);
      if vs[k].Blk? {
        err := ExtractProfile(vs[k].b, config);
        if err.Some? {
          WithProfilesErrorPersists(c0, vs, k + 1);
          return;
        }
      }
      k := k + 1;
    }
    assert vs[..|vs|] == vs;
    err := None;
  }

  /** One more entry of the profile list: a block is read as a profile, anything else is skipped. */
  lemma WithProfilesStep(c: ConfigValue, vs: seq<Value>, k: nat)
    requires k < |vs| && WithProfiles(c, vs[..k]).Ok?
    ensures WithProfiles(c, vs[..k + 1]) ==
      if vs[k].Blk? then WithProfile(WithProfiles(c, vs[..k]).value, vs[k].b) else WithProfiles(c, vs[..k])
  {
    assert vs[..k + 1][..k] == vs[..k] && vs[..k + 1][k] == vs[k];
  }


  /** `parse_policy_config`: tokenizes, then reads the top-level blocks in order. */
  method ParsePolicyConfig(text: string) returns (config: PolicyConfig, err: Option<ConfigError>)
    ensures err == ErrorOf(ConfigSpec(text))
    ensures err.None? ==> config.Value() == ConfigSpec(text).value
  {
    var tokens := Tokenizer.Tokenize(text);
    config := new PolicyConfig();
    var pos := 0;
    while pos < |tokens|
      invariant TopLoop(tokens, pos, config.Value()) == ConfigSpec(text)
      decreases |tokens| - pos
    {
      var tok := tokens[pos];
      if pos + 1 < |tokens| && tokens[pos + 1] == "{" {
        ghost var before := config.Value();
        var block, next := ParseBlock(tokens, pos + 1);
        if tok == "policies" {
          err := ExtractFromPoliciesBlock(block, config);
        } else if tok == "processing" {
          err := ExtractProcessingFilters(block, config);
        } else if tok == "overrides" {
          err := ExtractOverrides(block, config);
        } else {
          err := None;
        }
        if err.Some? {
          return;
        }
        pos := next;
      } else {
        pos := pos + 1;
      }
    }
    err := None;
  }
}
