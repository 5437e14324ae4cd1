# rl-scanner-to-github: policy configuration, report aggregation and filtering

This project models the core of rl-scanner-to-github in Dafny. The tool turns
a scanner report (`report.rl.json`) into GitHub issues. The core modelled here
has three parts.

- **The policy configuration** (`src/policy_config.py`). Its input is a file in
  Boost INFO syntax:
  - `tokenize` splits the text into words, quoted strings and `{`, `}`, `=`;
  - `_parse_block` builds nested blocks from the tokens;
  - `parse_policy_config` and its extractors read processing filters and
    disabled policies out of those blocks, from the top level or from
    `policies { profile ... }`;
  - `filter_policies` drops the disabled policies and suppresses components
    matched by a filter, and records each removal in an audit list.
- **The report aggregation** (`src/parse_report.py`). Failed violations are
  grouped by rule id, and each group becomes one `BlockingPolicy`:
  - components de-duplicated by path, at most 50;
  - sorted CVE ids;
  - fields taken from the group's first violation.

  The policies are ordered by `(priority, policy id)`. The CVE details cover the
  CVEs of the blocking policies. A scan whose status is not `fail` reports
  nothing.
- **Metadata routing** (`src/enrich.py`). A policy id goes to the metadata file
  of the first table prefix it starts with. The grouping loop collects the
  requested ids by file.

Modules, one file each:

- `Wrappers`: Option and Result.
- `Glob`: `fnmatch`.
- `Tokenizer`, `BlockParser`, `Extraction`: the configuration.
- `FilterEngine`: the matching helpers and `filter_policies`.
- `Ordering`: Python string and tuple order, and `sorted`.
- `ParseReport`.
- `Enrich`.

Each loop of the source is a method with invariants. It is proved equal to a
specification function, and lemmas state the properties of that function.
`PolicyConfig` is a class whose `filters` and `disabledPolicies` fields the
extractor methods update in place, as the source does.

Notes on the code as written:

- Two adjacent bare words in a block pair up as a key and its value (`{ a b }`
  gives `a = "b"`), so only an odd trailing word becomes a list item.
  `BlockParser.AdjacentItemsPairUp` shows this.
- The triaged-filter reason is
  `filt.reason or f"All CVEs triaged ({vex})" if vex else "All CVEs triaged"`.
  The conditional binds loosest, so a filter's own reason is used only when
  some CVE of the policy has a VEX reason. The model follows the code, and
  `FilterEngine.TriagedReasonPrecedence` states it.
- In `root` mode every leading `/` is stripped (`lstrip`), not just one.

## Model

| member | source | states |
|---|---|---|
| Tokenizer.Tokenize | src/policy_config.py:46-80 | the scanning loop yields exactly the texts of the token list `Lex` defines |
| Tokenizer.SkipComment | src/policy_config.py:54-57 | a comment is skipped up to, not including, the next newline or the end |
| Tokenizer.ScanQuoted | src/policy_config.py:61-72 | the quoted scan stops at the first unescaped `"` or the end; a backslash skips the next character |
| Tokenizer.ScanWord | src/policy_config.py:73-79 | a bare word runs to the first delimiter |
| Tokenizer.ScanToken | src/policy_config.py:50-79 | one iteration of the loop: the token emitted and the next position, as `Step` defines them |
| Tokenizer.CommentLen | src/policy_config.py:54-57 | the comment length stops at a newline or the end of the text |
| Tokenizer.QuotedLen | src/policy_config.py:65-69 | the quoted body stops at a `"` or the end of the text |
| Tokenizer.WordLen | src/policy_config.py:75-77 | a word holds no delimiter and is followed by a delimiter or the end |
| Tokenizer.Step | src/policy_config.py:50-79 | every step consumes at least one character, so tokenizing terminates |
| Tokenizer.LexWellFormed | src/policy_config.py:46-80 | every token is a single `{`, `}` or `=`, a quoted body, or a non-empty word without delimiters |
| Tokenizer.WordsHaveNoDelimiters | src/policy_config.py:73-79 | a bare-word token is non-empty and holds none of space, tab, newline, CR, `{`, `}`, `=`, `;`, `"` |
| Tokenizer.LexSpaceAt | src/policy_config.py:52-53 | whitespace produces no token |
| Tokenizer.LexCommentAt | src/policy_config.py:54-57 | a comment produces no token, and lexing resumes at the newline |
| Tokenizer.LexPunctAt | src/policy_config.py:58-60 | `{`, `}` and `=` are always single tokens |
| Tokenizer.LexWordAt | src/policy_config.py:73-79 | a well-formed word followed by a delimiter is one token |
| Tokenizer.LexQuotedAt | src/policy_config.py:61-72 | a quoted token is exactly the raw text between the quotes, backslash pairs kept |
| Tokenizer.UnterminatedQuote | src/policy_config.py:65-72 | a missing closing quote takes the rest of the input as the token |
| Tokenizer.LexSource | src/policy_config.py:46-80 | a token written out, then a space or the end, is lexed back to itself |
| Tokenizer.LexRender | src/policy_config.py:46-80 | round trip: tokens rendered with single spaces lex back to the same tokens |
| Tokenizer.LexKeyValue | src/policy_config.py:73-80 | two words separated by a space lex to two word tokens |
| Tokenizer.ExampleKeyValue | src/policy_config.py:46-80 | `key value` lexes to `["key", "value"]` |
| Tokenizer.LexQuotedSetting | src/policy_config.py:61-79 | `key "a b"` lexes to the word and the quoted body |
| Tokenizer.LexAssignment | src/policy_config.py:58-79 | `key = value` lexes to three tokens |
| Tokenizer.LexCommentedLine | src/policy_config.py:54-79 | the text after `;` up to the newline produces no token |
| Tokenizer.QuotableWithoutSpecials | src/policy_config.py:65-69 | text without `"` or backslash is a quotable body |
| BlockParser.ParseBlock | src/policy_config.py:83-129 | the recursive parsing method returns exactly the block and position `ParseBlockSpec` defines |
| BlockParser.ParseBlockSpec | src/policy_config.py:83-129 | the returned position is strictly after the start, the block has no label of its own, and its keys are unique |
| BlockParser.Step | src/policy_config.py:88-128 | each branch moves strictly forward, keeps earlier items, and keeps keys unique |
| BlockParser.Loop | src/policy_config.py:87-129 | the loop ends strictly after its start, keeps the items seen so far, and keeps keys unique |
| BlockParser.IndexOf | src/policy_config.py:97-122 | a key lookup finds the first entry with that key, or reports there is none |
| BlockParser.PutGet | src/policy_config.py:103-122 | after `d[k] = v`, k reads v and every other key reads as before |
| BlockParser.PutKeys | src/policy_config.py:103-122 | an existing key keeps its position and a new key goes last (dict insertion order) |
| BlockParser.RepeatedNamedBlocks | src/policy_config.py:92-103 | for any number of repeated `name { }` blocks: one block from a missing name is stored as it is, two or more form a list of all of them in source order, an existing list is extended by every block, and an earlier string or block under the name becomes the list's first element |
| BlockParser.AddNamedLookup | src/policy_config.py:97-103 | one more `name { }` stores the block under a missing name, appends it to a list, or pairs an earlier value with it in a two-element list |
| BlockParser.AddNamedAllCollects | src/policy_config.py:92-103 | after any number of `name { }` blocks the keys stay unique and the name holds the value `Collected` describes |
| BlockParser.LabeledIsLastOfList | src/policy_config.py:104-114 | a labelled block is stored as the last element of a list under its name |
| BlockParser.LabeledBlockStep | src/policy_config.py:104-114 | a `name label { }` step stores the nested block, carrying its label, as the list's last element |
| BlockParser.AddNamedKeepsUnique | src/policy_config.py:97-103 | adding a named block keeps keys unique |
| BlockParser.AnonymousBlockIgnored | src/policy_config.py:89-91 | an anonymous block adds nothing to the parent; parsing resumes after it |
| BlockParser.ValueTokenCases | src/policy_config.py:120 | `tok not in "{=}"` is a substring test: it fails exactly for "", `{`, `=`, `}`, `{=`, `=}` and `{=}` |
| BlockParser.ItemExample | src/policy_config.py:125-128 | `{ a }` yields the list item `a` |
| BlockParser.AdjacentItemsPairUp | src/policy_config.py:120-124 | `{ a b }` yields `a = "b"` and no item |
| Extraction.ParsePolicyConfig | src/policy_config.py:132-158 | the top-level loop produces the configuration `ConfigSpec` defines, or the error the source raises |
| Extraction.TopLoop | src/policy_config.py:137-158 | the top-level loop only adds filters and disabled ids |
| Extraction.OverridesAtTopLevel | src/policy_config.py:149-151 | reading a top-level `overrides` block adds to the disabled ids exactly those its entries disable (non-empty label, `enabled` lowercasing to `false`), keeps the filters, and parsing resumes after the block; so each such id ends up disabled |
| Extraction.ExtractFromPoliciesBlock | src/policy_config.py:161-173 | the profile loop updates the config as `WithPolicies` defines, and stops at the first error |
| Extraction.ExtractProfile | src/policy_config.py:167-173 | one profile: its processing filters, then its overrides |
| Extraction.WithProfiles | src/policy_config.py:163-173 | the profiles only add to the configuration |
| Extraction.WithProfile | src/policy_config.py:168-173 | one profile only adds to the configuration |
| Extraction.WithPolicies | src/policy_config.py:161-173 | a `policies` block only adds to the configuration |
| Extraction.WithProfilesDisabled | src/policy_config.py:161-173 | profiles disable exactly the ids their `overrides` blocks disable, added to those already disabled |
| Extraction.WithProfileDisabled | src/policy_config.py:167-173 | one profile disables, on top of the ids already disabled, exactly the ids its `overrides` block disables; its processing block disables none |
| Extraction.WithProfilesStep | src/policy_config.py:163-173 | one more element of the profile list: a block is read as a profile, anything else leaves the configuration as it was |
| Extraction.ExtractProcessingFilters | src/policy_config.py:176-204 | appends the new-shape filters, then the legacy filters kind by kind, as `WithProcessing` defines |
| Extraction.WithProcessing | src/policy_config.py:176-204 | processing only appends filters and leaves the disabled ids alone |
| Extraction.ProcessingParts | src/policy_config.py:183-204 | the processing filters join the `filter` list and the three legacy lists, and the first error wins |
| Extraction.ProcessingOrder | src/policy_config.py:183-204 | new-shape filters come first, then legacy ones ordered secrets, policies, triaged |
| Extraction.NewShapeThenLegacy | src/policy_config.py:183-204 | the new-shape list is a prefix of the joined list, and the legacy lists after it are in kind order when each holds filters of one kind |
| Extraction.RankedConcat | src/policy_config.py:195-204 | the three legacy lists joined are ordered by kind |
| Extraction.PrefixThenRanked | src/policy_config.py:183-204 | the new-shape filters stay a prefix of the whole list |
| Extraction.LegacyKinds | src/policy_config.py:195-204 | every filter from a legacy list has that list's kind |
| Extraction.AppendFilters | src/policy_config.py:184-204 | one list's filters are appended in order, non-block elements are skipped, and the first error stops the loop |
| Extraction.FiltersFromStep | src/policy_config.py:187-204 | one more element of a filter list: a block adds the filter it yields or fails, anything else is skipped |
| Extraction.ExtractEither | src/policy_config.py:190-202 | the method reads a block as a new-shape filter, or as a legacy filter of the given kind |
| Extraction.ExtractFilterBlock | src/policy_config.py:207-236 | the method builds the filter `FilterBlock` defines |
| Extraction.FilterBlockKind | src/policy_config.py:215-225 | the kind comes from key presence, with secrets before policies before triaged; with none of these there is no filter |
| Extraction.FilterBlockSettings | src/policy_config.py:209-213 | enabled, matches, pattern and reason are read from the block's settings |
| Extraction.FilterBlockDefaults | src/policy_config.py:209-213 | the defaults are enabled, `file`, `*` and `""`; a filter is disabled only by `enabled` lowercasing to `false` |
| Extraction.ExtractLegacyFilter | src/policy_config.py:239-262 | the method builds the filter `LegacyFilter` defines |
| Extraction.LegacyFilterProps | src/policy_config.py:239-262 | the pattern is the label or `*`; a legacy policies block yields a filter only when `blocker` lowercases to `pass`; without `blocker` it yields none |
| Extraction.PopulateFilterItems | src/policy_config.py:265-284 | the method fills the item lists as `Populate` defines |
| Extraction.AppendItems | src/policy_config.py:278-279 | the triaged block's bare items are appended to the CVE list, in order |
| Extraction.ScanTriagedEntries | src/policy_config.py:281-284 | the entry loop collects the `CVE-` keys in order and the VEX reasons as `VexOf` defines, and stops at a non-string reason |
| Extraction.PopulateItems | src/policy_config.py:265-284 | the lists are the nested block's items; triaged CVEs are items then `CVE-` keys; other fields are unchanged |
| Extraction.CveKeysMembers | src/policy_config.py:281-283 | the added CVEs are exactly the keys that start with `CVE-` |
| Extraction.VexOfSpec | src/policy_config.py:281-284 | each `CVE-` key is recorded with its value as a VEX reason, and nothing else is |
| Extraction.TriagedFilterVex | src/policy_config.py:275-284 | a triaged filter's CVEs are the bare items in order, then the `CVE-` keys; only the keys get VEX reasons |
| Extraction.TriagedFilterFields | src/policy_config.py:275-284 | a triaged filter's CVEs are the items then the `CVE-` keys, and its VEX reasons are those of the entries |
| Extraction.PopulateTriaged | src/policy_config.py:275-284 | populating an empty triaged filter gives items-then-keys as CVEs and the entries' VEX reasons |
| Extraction.ExtractOverrides | src/policy_config.py:287-298 | the overrides loop updates the config as `WithOverrides` defines |
| Extraction.WithOverrides | src/policy_config.py:287-298 | an id is disabled afterwards iff it was before or some `policies` entry has a non-empty label equal to it and `enabled` lowercasing to `false` (a missing `enabled` never disables); the filters are unchanged; reading fails iff some `enabled` is not a string |
| Extraction.DisabledIdsMembers | src/policy_config.py:287-298 | an id is disabled iff a labelled `policies` entry has a non-empty label and `enabled` lowercasing to `false`; a non-string `enabled` raises |
| Extraction.DisabledIdsOk | src/policy_config.py:287-298 | when reading succeeds, an id is disabled iff some entry disables it |
| Extraction.DisabledIdsErr | src/policy_config.py:291-294 | reading fails iff some entry's `enabled` is not a string |
| Extraction.DisabledIdsStep | src/policy_config.py:289-298 | one more override entry: a block adds its label when `enabled` lowercases to `false` and the label is non-empty, fails on a non-string `enabled`, and a missing `enabled` counts as `true` |
| Extraction.PolicyConfig.constructor | src/policy_config.py:39-43 | a new configuration has no disabled ids and no filters |
| Extraction.PolicyConfig.AddFilter | src/policy_config.py:192 | appends one filter and nothing else changes |
| Extraction.PolicyConfig.Disable | src/policy_config.py:298 | adds one disabled id and nothing else changes |
| Extraction.VexOfErrorPersists | src/policy_config.py:281-284 | an error on a prefix of the entries is the error of the whole |
| Extraction.FiltersFromErrorPersists | src/policy_config.py:187-204 | an error on a prefix of a filter list is the error of the whole |
| Extraction.DisabledIdsErrorPersists | src/policy_config.py:292-298 | an error on a prefix of the overrides is the error of the whole |
| Extraction.WithProfilesErrorPersists | src/policy_config.py:167-173 | an error on a prefix of the profiles is the error of the whole |
| Glob.StarMatchesEverything | src/policy_config.py:11 | `*` matches every string |
| Glob.LiteralMatchesItself | src/policy_config.py:11 | a pattern without wildcards matches exactly itself |
| Glob.PrefixStarMatches | src/policy_config.py:11 | `prefix*` matches exactly the strings that start with the prefix |
| Glob.StarSuffixMatches | src/policy_config.py:11 | `*suffix` matches exactly the strings that end with the suffix |
| Glob.QuestionMarkIsOneChar | src/policy_config.py:11 | `?` matches exactly the one-character strings |
| Glob.SuffixExamples | src/policy_config.py:11 | `*.py` matches `main.py` and not `main.js` |
| Glob.PrefixExamples | src/policy_config.py:11 | `lib/*` and `SQ311*` match by prefix |
| Glob.RangeExamples | src/policy_config.py:11 | a class `[a-c]` and its negation `[!a-c]` match one character; an unclosed `[` is literal |
| Glob.FindClose | src/policy_config.py:11 | finds the first `]` from a position, or reports there is none |
| Glob.ClassEnd | src/policy_config.py:11 | a class's closing `]` comes after at least one member character |
| FilterEngine.ModeSemantics | src/policy_config.py:331-350 | `*` matches everything in every mode; an unknown mode matches nothing else; `file` mode looks only at the name after the last separator; `root` mode ignores a leading `/` |
| FilterEngine.NormalizeSpec | src/policy_config.py:336 | every backslash becomes `/` and nothing else changes |
| FilterEngine.FileNameSpec | src/policy_config.py:340 | the file name is the longest suffix without `/` |
| FilterEngine.LStripSpec | src/policy_config.py:347 | stripping removes exactly the leading run of `/` |
| FilterEngine.NormalizeAppend | src/policy_config.py:336 | normalizing a concatenation normalizes each part |
| FilterEngine.FileNameAfterSlash | src/policy_config.py:340 | the file name of `dir/name` is `name` |
| FilterEngine.AnyMatchSpec | src/policy_config.py:353-355 | an id matches iff some pattern of the list glob-matches it |
| FilterEngine.AllMatchedSpec | src/policy_config.py:362-365 | the loop's check holds iff every id is matched by some pattern |
| FilterEngine.AllCvesTriagedSpec | src/policy_config.py:358-365 | no CVE ids means not triaged; otherwise triaged iff every id is glob-matched by some pattern |
| FilterEngine.CheckAllCvesTriaged | src/policy_config.py:358-365 | the early-return loop computes `AllCvesTriaged` |
| FilterEngine.VexPartsEmpty | src/policy_config.py:434-435 | the VEX text has no parts iff none of the policy's CVEs has a VEX reason |
| FilterEngine.JoinEmpty | src/policy_config.py:434 | joining non-empty parts is empty iff there are none |
| FilterEngine.TriagedReasonPrecedence | src/policy_config.py:431-436 | without VEX reasons the reason is "All CVEs triaged"; with some, the filter's reason if non-empty, else the VEX summary |
| FilterEngine.SuppressionFirstMatch | src/policy_config.py:412-437 | a component is suppressed iff some filter applies, with the reason of the first filter that applies |
| FilterEngine.FindSuppression | src/policy_config.py:412-437 | the filter loop, with its early exits, finds the first applying filter and its reason |
| FilterEngine.MatchesSomeDisabled | src/policy_config.py:391-402 | the wildcard loop finds a disabled entry that glob-matches the id iff there is one |
| FilterEngine.DisabledAuditSpec | src/policy_config.py:382-402 | a disabled policy's audit has one "Policy disabled in overrides" entry per component, in order |
| FilterEngine.DisabledPolicyDropped | src/policy_config.py:380-404 | a policy disabled exactly or by a glob is dropped, with one audit entry per component |
| FilterEngine.AuditDisabled | src/policy_config.py:383-388 | the audit loop for a disabled policy computes those entries |
| FilterEngine.FilterComponentsSpec | src/policy_config.py:406-446 | the survivors are an order-preserving subsequence of the components, exactly the unsuppressed ones, and survivors plus audit entries number the components |
| FilterEngine.FilterComponentsKept | src/policy_config.py:406-446 | the survivors number the unsuppressed components, and each unsuppressed component is kept at its rank among them, so repeated components survive as often as they occur unsuppressed |
| FilterEngine.FilterComponentsAudit | src/policy_config.py:406-446 | the audit entries number the suppressed components, and each suppressed component has exactly one entry, at its rank among them, with its path and its first applying filter's reason |
| FilterEngine.KeptPlusSuppressed | src/policy_config.py:406-446 | every component is counted once, as kept or as suppressed |
| FilterEngine.FilterPolicyComponents | src/policy_config.py:406-446 | the component loop computes the survivors and audit that `FilterComponents` defines |
| FilterEngine.SubseqSnocRight | src/policy_config.py:439-446 | skipping an original component keeps the survivors a subsequence |
| FilterEngine.SubseqSnocBoth | src/policy_config.py:439-446 | keeping an original component keeps the survivors a subsequence |
| FilterEngine.SuppressionIgnoresComponents | src/policy_config.py:412-437 | whether a filter applies does not depend on the policy's component list |
| FilterEngine.NothingSuppressed | src/policy_config.py:406-446 | components that no filter suppresses all survive, without audit entries |
| FilterEngine.FilterOneCount | src/policy_config.py:380-458 | each component of a policy is either kept or audited |
| FilterEngine.FilterAllSpec | src/policy_config.py:368-460 | no remaining policy is disabled or empty; each is an input policy with only its components narrowed; every non-disabled input policy that keeps a component remains |
| FilterEngine.FilterAllCount | src/policy_config.py:368-460 | the audit entries and the remaining components account for every input component exactly once |
| FilterEngine.FilterAllSnoc | src/policy_config.py:379-458 | the policies are processed one after another, in input order |
| FilterEngine.FilterOneStable | src/policy_config.py:368-460 | a policy as filtering leaves it passes a second filtering unchanged |
| FilterEngine.FilterIdempotent | src/policy_config.py:368-460 | filtering the remaining policies again changes nothing and audits nothing |
| FilterEngine.FilterPolicies | src/policy_config.py:368-460 | the method returns the policies and audit list that `FilterAll` defines; it modifies nothing |
| ParseReport.ParseReport | src/parse_report.py:60-85 | the method returns the result `ScanResultOf` defines, with defaults "unknown", 0 and "unknown" |
| ParseReport.StatusGate | src/parse_report.py:68-85 | a status other than `fail` gives no policies and no CVE details; `fail` gives the aggregated policies and the details of exactly their CVEs |
| ParseReport.FailIdsMembers | src/parse_report.py:96-101 | the contributing ids are exactly the truthy rule ids of violations whose status is `fail` |
| ParseReport.Dedup | src/parse_report.py:95-104 | the distinct ids in first-seen order hold every id once |
| ParseReport.GroupOfProps | src/parse_report.py:96-101 | a group holds only contributing violations with that id, and is non-empty iff the id contributes |
| ParseReport.GroupStartsAtFirst | src/parse_report.py:101-105 | a group starts with the first contributing violation of its id |
| ParseReport.GroupSnoc | src/parse_report.py:96-101 | each violation extends only its own id's group, and only when its status is "fail" and its rule id non-empty |
| ParseReport.FailIdsSnoc | src/parse_report.py:96-101 | a counting violation appends its rule id to the list of failing ids; any other violation leaves it |
| ParseReport.DedupSnoc | src/parse_report.py:101 | `setdefault` keeps the key order of first insertion |
| ParseReport.GroupAdvance | src/parse_report.py:96-101 | one iteration of the grouping loop: after the update the key order and groups describe one more violation |
| ParseReport.GroupsAfter | src/parse_report.py:100-101 | after a failing violation only its own rule id's group grows, by that violation, and ids without a group still have no violations |
| ParseReport.GroupSkip | src/parse_report.py:96-101 | a violation whose status is not "fail" or whose rule id is empty leaves the key order and the groups unchanged, and they still describe the longer prefix |
| ParseReport.GroupAppend | src/parse_report.py:96-101 | a failing violation of a rule id already present is appended to that group; the key order is unchanged |
| ParseReport.GroupOpen | src/parse_report.py:96-101 | a failing violation of a new rule id opens a one-element group and puts the id at the end of the key order |
| ParseReport.GroupViolations | src/parse_report.py:95-101 | the grouping loop yields one group per distinct contributing id, in first-seen order, holding its violations in order |
| ParseReport.ResolveAll | src/parse_report.py:111-113 | each component reference resolves to one component |
| ParseReport.ResolveAllSnoc | src/parse_report.py:111-113 | resolving one more reference appends its component |
| ParseReport.FirstIndex | src/parse_report.py:114 | the first component with a given path |
| ParseReport.DedupPathsProps | src/parse_report.py:108-119 | the affected components have distinct, non-empty paths: exactly the non-empty paths of the candidates |
| ParseReport.DedupPathsFirstSeen | src/parse_report.py:108-119 | each kept component is the first one seen with its path, in first-seen order |
| ParseReport.Cap | src/parse_report.py:133 | exactly the first 50 components are kept, or all of them when there are at most 50 |
| ParseReport.CollectStep | src/parse_report.py:113-119 | one component step keeps the de-duplication invariant |
| ParseReport.CollectAdvance | src/parse_report.py:111-119 | one iteration of the reference loop: the list stays the path de-duplication of the components resolved so far |
| ParseReport.CollectRefs | src/parse_report.py:111-119 | the inner reference loop extends the de-duplicated list |
| ParseReport.CollectComponents | src/parse_report.py:108-119 | the nested loops collect the de-duplicated components of the group |
| ParseReport.MatchingCves | src/parse_report.py:122-125 | the CVE ids are exactly those whose `violations` name the policy |
| ParseReport.CveIdsSortedAndExact | src/parse_report.py:122-134 | the CVE ids are sorted and exactly those whose `violations` name the policy |
| ParseReport.CollectCveIds | src/parse_report.py:122-134 | the comprehension and sort compute `CveIdsOf` |
| ParseReport.PoliciesFor | src/parse_report.py:103-135 | one policy per grouped id |
| ParseReport.PoliciesForElems | src/parse_report.py:104-135 | the k-th policy is built from the k-th id's group |
| ParseReport.PoliciesForSnoc | src/parse_report.py:104-135 | the policy loop appends one policy per id |
| ParseReport.BuildPolicy | src/parse_report.py:105-135 | fields come from the first violation (defaults "unknown" and 4), with components and CVE ids as defined |
| ParseReport.ExtractBlockingPolicies | src/parse_report.py:88-138 | the method returns the sorted policies that `BlockingPoliciesOf` defines |
| ParseReport.UnsortedIds | src/parse_report.py:103-135 | before sorting, the policies' ids are the distinct contributing ids in first-seen order |
| ParseReport.UnsortedDistinct | src/parse_report.py:103-135 | before sorting, no two policies share an id |
| ParseReport.BlockingPoliciesOrdered | src/parse_report.py:137 | the result is ordered by (priority, policy id), is a permutation of the unsorted list, and has distinct ids |
| ParseReport.BlockingPoliciesAreGroups | src/parse_report.py:103-137 | every result policy is the one built from its id's group |
| ParseReport.BlockingPoliciesCover | src/parse_report.py:96-137 | every contributing violation has its policy in the result |
| ParseReport.PolicyComponents | src/parse_report.py:108-133 | the components are the first `min(50, n)` of the n de-duplicated components, with distinct non-empty paths |
| ParseReport.DistinctIdsPermutation | src/parse_report.py:137 | sorting keeps the ids distinct |
| ParseReport.Elems | src/parse_report.py:146-147 | the set of a list's elements |
| ParseReport.NeededCves | src/parse_report.py:145-147 | the needed CVEs are exactly the union of the policies' CVE ids |
| ParseReport.VulnOf | src/parse_report.py:151 | a vulnerability lookup finds the entry with that id, or reports there is none |
| ParseReport.CveDetailsSpec | src/parse_report.py:141-159 | details are kept for exactly the needed CVEs; `exploited` iff `EXISTS` is among the exploit flags, `fixable` iff `FIXABLE` is |
| ParseReport.ExtractCveDetails | src/parse_report.py:141-159 | the loop computes `CveDetailsOf` |
| Ordering.StrLeTotal | src/parse_report.py:134-137 | Python's string order is total |
| Ordering.StrLeTrans | src/parse_report.py:134-137 | Python's string order is transitive |
| Ordering.StrLeAntisym | src/parse_report.py:134-137 | Python's string order is antisymmetric |
| Ordering.SortBySorted | src/parse_report.py:137 | `sort` output is ordered by the key |
| Ordering.SortByPerm | src/parse_report.py:137 | `sort` output is a permutation of its input |
| Ordering.InsertSorted | src/parse_report.py:137 | insertion keeps a sorted list sorted |
| Ordering.InsertPerm | src/parse_report.py:137 | insertion adds exactly one element |
| Ordering.SortedStrings | src/parse_report.py:134 | `sorted(cve_ids)` is non-decreasing and a permutation |
| Enrich.FileForPolicySpec | src/enrich.py:6-25 | None iff no table prefix starts the id; otherwise the file of every prefix that does, which is one of the table's values |
| Enrich.FirstPrefixSpec | src/enrich.py:20-25 | the first entry whose prefix starts the id gives the file, and None iff there is none |
| Enrich.GetFileForPolicy | src/enrich.py:20-25 | the lookup loop computes `FileForPolicy` |
| Enrich.TablePrefixFree | src/enrich.py:6-17 | no table prefix is a prefix of another |
| Enrich.UniqueMatch | src/enrich.py:6-24 | in a prefix-free table at most one prefix starts an id |
| Enrich.OrderIrrelevant | src/enrich.py:6-24 | any reordering of the table gives the same lookups |
| Enrich.SameLookup | src/enrich.py:20-24 | two orders of one prefix-free table give the same first-match lookup |
| Enrich.PrefixesOfOneString | src/enrich.py:23 | of two prefixes of one id, the shorter is a prefix of the longer |
| Enrich.PrefixShape | src/enrich.py:6-17 | nine prefixes of the form `SQdd`, then `TH` |
| Enrich.CodesStrict | src/enrich.py:6-16 | the two digits of the `SQ` prefixes strictly increase down the table |
| Enrich.VulnerabilityExample | src/enrich.py:6-24 | `SQ31102` routes to `vulnerabilities.json` |
| Enrich.HuntingExample | src/enrich.py:6-24 | `TH001` routes to `hunting.json` |
| Enrich.UnknownExample | src/enrich.py:20-25 | `XX99999` routes nowhere |
| Enrich.GroupedSpec | src/enrich.py:38-42 | a file has a bucket iff some id routes to it, and its bucket is exactly those ids in input order |
| Enrich.BucketMembers | src/enrich.py:38-42 | a bucket holds only input ids routed to that file |
| Enrich.BucketHolds | src/enrich.py:38-42 | every routed id is in its file's bucket |
| Enrich.IdsInBuckets | src/enrich.py:38-42 | an id is in a file's bucket iff it is an input routed to that file; an unrouted id is in no bucket |
| Enrich.GroupByFile | src/enrich.py:38-42 | the grouping loop builds the map `Grouped` defines |

## Left out

- Reading files is not modelled: `load_policy_config`, `find_policy_config`, the JSON loading in `parse_report`, and the file reads and localization lookup in `load_policy_metadata`. The decoded report is an input value, and so is the configuration text.
- `src/github_issues.py` and `src/main.py` are not part of this model. They are network I/O and orchestration.
- The CVSS base score is copied through as an opaque value and never read.
- The decoded report is typed: violation statuses, rule ids, category, severity and effort are strings, a priority is an integer, and a vulnerability's `violations` and `exploit` are lists of strings. The source's behaviour on other JSON values is not modelled; the next four lines name the cases.
- ParseReport.FailIdsMembers: a truthy rule id that is a number is grouped by the source like any other id; the model has only string ids.
- ParseReport.MatchingCves: when a vulnerability's `violations` is a string, `policy_id in ...` is a substring test in the source; the model has only lists, where `in` is membership.
- ParseReport.CveDetailsSpec: when `exploit` is a string, `"EXISTS" in flags` and `"FIXABLE" in flags` are substring tests in the source; the model has only lists.
- ParseReport.BlockingPoliciesOrdered: a priority that is not a number makes the source's sort raise `TypeError` when compared with an integer; the model's priorities are integers, so it never fails.
- BlockParser.ParseBlockSpec: nesting depth is unbounded. CPython stops `_parse_block`'s recursion at its recursion limit (about a thousand nested `{`) with a `RecursionError`; the model parses any depth.
- Case folding: `str.lower` is modelled on ASCII letters only. For the comparisons the source makes, against `false` and `pass`, this is exact, because no other character lowercases to one of those letters.
- `fnmatch` follows POSIX, with no `normcase` folding. Python's merging of consecutive `*` and its handling of reversed class ranges are captured only as far as `Glob.Match` defines them.
- Keys literally named `_items` or `_label` are ordinary keys in the model. In the source they would collide with the parser's own bookkeeping entries.
- Python raises on some malformed settings. These become a `ConfigError` result, and the partly built configuration is discarded as the exception would discard it:
  - a non-string `enabled` in overrides, or a non-string `blocker` (`.lower()` on a block);
  - a `processing` or `overrides` entry of a profile that is not a block (`.get` on a string or list).
- Extraction.FilterBlock: a `pattern` or `reason` that is a block or list gives a `NonStringSetting` error. The source keeps such a value and fails, or prints it, only later.
- Extraction.LegacyFilter: the same deviation for a non-string `reason`.
- Extraction.VexOf: a `CVE-` key whose value is a block gives a `NonStringSetting` error, where the source stores the block as the VEX reason.
- Extraction.MatchesSetting: a non-string `matches` is recorded as `""`. Like any unknown mode, it then matches no path except through `*`.
- `Filter` and `FilteredItem` are immutable values. `_populate_filter_items` mutates a fresh `Filter` that nothing else references, so the model returns the updated value instead.
- The CVE details and `files_to_load` are Dafny maps, so their key order is not modelled. Nothing in the modelled core depends on it.
- Enrich.GroupByFile: models only the grouping loop of `load_policy_metadata`; the file loading after it is I/O.
