# Colocation strategy resolution (koordinator SLO controller)

This project is a Dafny model of how the koordinator SLO controller works out the colocation strategy for
one node (`pkg/slo-controller/config/config.go`). The strategy is the policy that says whether spare CPU and
memory on the node may be reclaimed for best-effort pods. It also gives the thresholds for that reclaim.

- `Colocation` (colocation.dfy) holds the data model:
  - a `ColocationStrategy` with six optional fields (`None` is a nil pointer);
  - a `ColocationCfg`, which is the cluster default strategy plus an ordered list of node-group entries;
  - a `NodeColocationCfg` entry, which pairs a node selector with an embedded `ColocationCfg`.

  The same module holds the built-in defaults, the strategy and entry validity checks, the field-wise copy
  (`copier.Copy`) and the merge (`util.Merge`).
- `Labels` (labels.dfy) models the part of the Kubernetes label-selector library that the code calls:
  - `metav1.LabelSelectorAsSelector` turns a nil selector into `labels.Nothing()`, which matches no node;
  - it turns a selector with no requirements into `labels.Everything()`, which matches every node;
  - otherwise each `MatchLabels` pair becomes an equality requirement;
  - `Selector.Matches` is the conjunction of those requirements.

  The library's syntax rules for label keys and values are a parameter, `syntax`. Every property holds for
  any such rule.
- `Resolution` (resolution.dfy) models `GetNodeColocationStrategy`:
  - the method follows the Go loop, with its `continue` and `break`;
  - it is proved to compute `Resolve`, a function over the entry sequence;
  - the lemmas state what the walk promises: first match wins, the default is the fallback, skipped
    entries do not matter, and nested configurations are ignored.

Strategies and configurations are values here. Resolution therefore cannot change the stored default.
Two calls with the same configuration and node give equal results, because the method's postcondition
fixes its result as a function of its inputs.

The code has four behaviours that are easy to miss; the model keeps them:

- The entry check rejects a nil `MatchLabels` map but accepts an empty one (config.go:88). An entry with an
  empty one selects every node (`EmptyMatchLabelsAccepted`, `EmptySelectorMatchesAll`).
- The entry check does not look at field values (config.go:95). The resolver never calls either check.
  As a result, a negative threshold can reach a node (`EntryCheckIgnoresFieldValues`,
  `EntryCheckDoesNotGuardResult`).
- A failed merge does not end resolution. The loop goes on to the next entry (config.go:116-117,
  `MergeFailureSkipped`).
- The nil-selector guard inside the match (config.go:115) can never fire. A nil selector parses to
  `labels.Nothing()` and so never matches (`NilSelectorNeverMatches`). It is modelled as written.

## Model

| member | source | states |
|---|---|---|
| Colocation.FloatPositive | pkg/slo-controller/config/config.go:81 | Go's float64 `> 0`: never true for NaN or -Inf, and on a finite value exactly the real comparison with zero |
| Colocation.EmptyStrategy | pkg/slo-controller/config/config.go:95 | the zero value `ColocationStrategy{}` that the entry check compares against has every field unset |
| Colocation.Marshalable | pkg/slo-controller/config/config.go:116 | encoding/json accepts a strategy exactly when every present float field is finite; the bool and integer fields never make it refuse |
| Resolution.Selects | pkg/slo-controller/config/config.go:110-114 | the parse-then-match test of the loop body: never true for a nil selector, always true for a selector without requirements, and otherwise true exactly when every pair passes the syntax rule and the pairs are among the node's labels |
| Colocation.DefaultColocationStrategy | pkg/slo-controller/config/config.go:64-73 | every field is set, colocation is disabled, and the default passes IsColocationStrategyValid |
| Colocation.DefaultColocationCfg | pkg/slo-controller/config/config.go:58-62 | the default configuration has a fully set, valid strategy and no node-group entries |
| Colocation.IsColocationStrategyValid | pkg/slo-controller/config/config.go:75-82 | false for a nil strategy; otherwise true exactly when every present field is acceptable (numbers strictly positive, Enable unconstrained), so an absent field never makes it false |
| Colocation.FieldwiseValidity | pkg/slo-controller/config/config.go:76-81 | the five field-by-field tests together say the same as "every present field is acceptable" |
| Colocation.IsNodeColocationCfgValid | pkg/slo-controller/config/config.go:84-96 | true exactly when the entry is present, its selector and MatchLabels are not nil, the selector parses, and the override sets at least one field; field values are not checked |
| Colocation.IsNodeColocationCfgValidAsWritten | pkg/slo-controller/config/config.go:84-96 | as written, it panics exactly when the entry's selector is nil; whenever it returns, it agrees with IsNodeColocationCfgValid |
| Colocation.NilSelectorPanics | pkg/slo-controller/config/config.go:88 | an entry with a nil selector and a full override makes the as-written check panic, and the corrected check answers false |
| Colocation.EntryCheckIgnoresFieldValues | pkg/slo-controller/config/config.go:95 | an entry whose override sets a negative CPU threshold passes the entry check, although the override is not a valid strategy |
| Colocation.EmptyMatchLabelsAccepted | pkg/slo-controller/config/config.go:88-95 | an entry with an empty, non-nil MatchLabels passes the entry check whenever its override sets some field |
| Colocation.CopyStrategy | pkg/slo-controller/config/config.go:103-104 | the copy agrees with the default on every field |
| Colocation.Overlay | pkg/slo-controller/config/config.go:116-119 | each field of the result is the override's when the override sets it, and the base's otherwise |
| Colocation.Merge | pkg/slo-controller/config/config.go:116 | it succeeds exactly when neither side holds a NaN or infinite float, and then yields the overlay |
| Colocation.OverlaySingleField | pkg/slo-controller/config/config.go:116-119 | an override that sets only field F leaves every other field as it is in the base, and F takes the override's value |
| Colocation.OverlayEmpty | pkg/slo-controller/config/config.go:116-119 | overlaying the empty strategy changes nothing, and overlaying onto the empty strategy gives the override |
| Colocation.OverlayIdempotent | pkg/slo-controller/config/config.go:116-119 | applying the same override twice equals applying it once |
| Colocation.OverlayPreservesValidity | pkg/slo-controller/config/config.go:116-119 | a valid override merged onto a valid base gives a valid strategy |
| Labels.RequiredLabels | pkg/slo-controller/config/config.go:88 | a nil MatchLabels map reads as an empty map; a non-nil one is returned as is |
| Labels.AsSelector | pkg/slo-controller/config/config.go:110-113 | a nil selector parses to Nothing; an empty one parses to Everything; parsing fails exactly when some required pair breaks the syntax rule; otherwise the result is the conjunction of the pairs |
| Labels.Matches | pkg/slo-controller/config/config.go:114 | Nothing matches no node and Everything matches every node; a conjunction matches exactly when its pairs are a subset of the node's labels |
| Resolution.Step | pkg/slo-controller/config/config.go:110-123 | an entry stops the walk only if its selector parses, matches and is not nil, and then the result is the successful merge (the overlay); a selecting entry whose merge succeeds always stops the walk |
| Resolution.Resolve | pkg/slo-controller/config/config.go:109-125 | the result is the default, or the strategy at which some entry stops the walk; if no entry stops it, the result is the default |
| Resolution.GetNodeColocationStrategy | pkg/slo-controller/config/config.go:98-126 | nil for a nil configuration or node; otherwise the walk over the entries in stored order starting from a copy of the default (Resolve) |
| Resolution.NoMatchGivesDefault | pkg/slo-controller/config/config.go:103-125 | if no entry's selector parses and matches the node, the result equals the default field for field |
| Resolution.FirstMatchWins | pkg/slo-controller/config/config.go:109-123 | when every entry before i lets the walk go on (selector does not parse or match, or merge fails) and entry i selects the node with a successful merge, the result is overlay(default, entry i's strategy), whatever later entries hold |
| Resolution.PassedEntryIrrelevant | pkg/slo-controller/config/config.go:109-124 | removing an entry that does not stop the walk leaves the result unchanged |
| Resolution.UnparseableEntrySkipped | pkg/slo-controller/config/config.go:110-113 | an entry whose selector fails to parse is skipped without aborting resolution |
| Resolution.MergeFailureSkipped | pkg/slo-controller/config/config.go:116-117 | an entry whose merge fails is skipped, and later entries are still tried |
| Resolution.NilSelectorNeverMatches | pkg/slo-controller/config/config.go:114-115 | an entry with a nil selector never matches, so it never stops the walk |
| Resolution.EmptySelectorMatchesAll | pkg/slo-controller/config/config.go:110-114 | a selector with an empty MatchLabels matches every node |
| Resolution.ResultIsDefaultOrMatchedOverlay | pkg/slo-controller/config/config.go:109-125 | the result is the default, or some selecting entry's override laid over the default |
| Resolution.NestedConfigsIgnored | pkg/slo-controller/config/config.go:39-42 | entries that differ only in their embedded nested node configurations resolve alike |
| Resolution.ResolvePreservesValidity | pkg/slo-controller/config/config.go:109-125 | a valid default with valid overrides always resolves to a valid strategy |
| Resolution.EntryCheckDoesNotGuardResult | pkg/slo-controller/config/config.go:109-124 | an entry that passes the entry check can give a selected node an invalid strategy, because the resolver never validates |
| Resolution.ZoneOverrideExample | pkg/slo-controller/config/config.go:114-119 | default {enable false, cpu 65} and a zone=a group {enable true}: a zone=a node gets {enable true, cpu 65} |

## Findings

| source | as written | input that shows it | evidently intended | confidence | as-written member | corrected member |
|---|---|---|---|---|---|---|
| pkg/slo-controller/config/config.go:88 | `nodeCfg.NodeSelector.MatchLabels` is read without checking `NodeSelector` for nil | a non-nil entry whose `NodeSelector` is nil: Go panics with a nil-pointer dereference | return false, as it does for a nil `MatchLabels` | high; not executed | Colocation.IsNodeColocationCfgValidAsWritten (witness: Colocation.NilSelectorPanics) | Colocation.IsNodeColocationCfgValid |

## Left out

- `Configuration`, `NewConfiguration` and `InitFlags` (config.go:128-167) are left out. They register command-line flags and set constant defaults, with no resolution logic.
- `NewDefaultColocationCfg` (config.go:53-56) is left out. It only returns a pointer to `DefaultColocationCfg()`, which is modelled.
- The generated lister (`pkg/client/listers/config/v1alpha1/clustercolocationprofile.go`) is not part of this model. It is read-only access to a client-go cache.
- The runtime-hooks server test (`pkg/koordlet/runtimehooks/runtimehooks_test.go`) is not part of this model. It covers network I/O and goroutines.
- Label selectors are reduced to `MatchLabels`. `MatchExpressions` and the set-based operators are not modelled.
- The library's syntax rules for label keys and values (qualified names, length limits) are the parameter `syntax` and are not restated.
- A node is reduced to its labels. A nil label map and an empty one behave alike, as they do for `labels.Set`.
- A `float64` is a real number, or +Inf, -Inf or NaN. Rounding is not modelled, so the default 0.1 is the exact real 0.1. Only `> 0` and JSON encodability are observed, so nothing depends on rounding.
- Colocation.Merge: models `util.Merge` as a JSON merge patch of the two strategies. It fails only when encoding/json refuses a NaN or infinite float. Its type-mismatch error cannot happen, because both arguments are `*ColocationStrategy`. For the same reason the type assertion at config.go:119, whose `ok` result the code ignores, is taken to always succeed; if `util.Merge` returned another type the Go function would return nil, which the model does not represent.
- Colocation.CopyStrategy: models `copier.Copy` as a total field-wise copy. The error return at config.go:104-106 cannot be reached for two values of the same struct type, so that path is not modelled.
- Whether the copy shares pointers with the stored default is not modelled; strategies here are values, so no sharing can be observed.
- JSON field tags and serialisation (`omitempty`) are not modelled. They matter only in that unset fields are left out of the merge patch, which `Overlay` captures.
