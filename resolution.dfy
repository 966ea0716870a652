/**
 * GetNodeColocationStrategy: the strategy that applies to one node. A copy of the cluster default
 * is taken, the node-group entries are walked in stored order, and the first entry whose selector
 * parses and matches the node's labels has its override merged onto the copy and ends the walk.
 * An entry whose selector does not parse, or whose merge fails, is passed over.
 *
 * Resolve states that walk as a function over the entry sequence; the method follows the Go loop
 * statement by statement and is proved to compute Resolve. The lemmas state what the walk promises.
 */
module Resolution {
  import opened Wrappers
  import opened Labels
  import opened Colocation

  /** corev1.Node, reduced to its labels. */
  datatype Node = Node(labels: LabelSet)

  /** Whether the selector of `e` parses and matches `labels`: the test of the loop body. */
  predicate Selects(e: NodeColocationCfg, labels: LabelSet, syntax: LabelSyntax)
    ensures Selects(e, labels, syntax) ==> e.nodeSelector.Some?
    ensures e.nodeSelector.Some? && |RequiredLabels(e.nodeSelector.value)| == 0 ==> Selects(e, labels, syntax)
    ensures e.nodeSelector.Some? && |RequiredLabels(e.nodeSelector.value)| != 0 ==>
      var required := RequiredLabels(e.nodeSelector.value);
      (Selects(e, labels, syntax) <==>
        (forall k :: k in required ==> syntax(k, required[k])) && required.Items <= labels.Items)
  {
    var parsed := AsSelector(e.nodeSelector, syntax);
    parsed.Ok? && Matches(parsed.value, labels)
  }

  /** What one entry does to the walk: None when the walk goes on to the next entry, Some(s) when
      the walk stops with strategy `s`. */
  function Step(base: ColocationStrategy, e: NodeColocationCfg, labels: LabelSet, syntax: LabelSyntax): (r: Option<ColocationStrategy>)
    ensures r.Some? ==> Selects(e, labels, syntax) && e.nodeSelector.Some?
    ensures r.Some? ==> Merge(base, e.cfg.strategy) == Ok(r.value) && r.value == Overlay(base, e.cfg.strategy)
    ensures Selects(e, labels, syntax) && Merge(base, e.cfg.strategy).Ok? ==> r.Some?
  {
    var parsed := AsSelector(e.nodeSelector, syntax);
    if parsed.Err? then None
    else if !Matches(parsed.value, labels) then None
    else if e.nodeSelector.None? then Some(base)
    else match Merge(base, e.cfg.strategy)
      case Err(_) => None
      case Ok(merged) => Some(merged)
  }

  /** The strategy the walk over `entries` yields when it starts from `base`. */
  function Resolve(base: ColocationStrategy, entries: seq<NodeColocationCfg>, labels: LabelSet, syntax: LabelSyntax): (r: ColocationStrategy)
    ensures r == base || exists i :: 0 <= i < |entries| && Step(base, entries[i], labels, syntax) == Some(r)
    ensures (forall i :: 0 <= i < |entries| ==> Step(base, entries[i], labels, syntax).None?) ==> r == base
    decreases |entries|
  {
    if |entries| == 0 then base
    else match Step(base, entries[0], labels, syntax)
      case Some(s) => s
      case None =>
        var r := Resolve(base, entries[1..], labels, syntax);
        assert forall i :: 0 <= i < |entries| - 1 ==> entries[1..][i] == entries[i + 1];
        r
  }

  /** GetNodeColocationStrategy: nil when the configuration or the node is nil; otherwise the
      default strategy with the override of the first applicable entry merged onto it. */
  method GetNodeColocationStrategy(cfg: Option<ColocationCfg>, node: Option<Node>, syntax: LabelSyntax)
    returns (r: Option<ColocationStrategy>)
    ensures cfg.None? || node.None? ==> r == None
    ensures cfg.Some? && node.Some? ==>
      r == Some(Resolve(cfg.value.strategy, cfg.value.nodeConfigs, node.value.labels, syntax))
  {
    if cfg.None? || node.None? {
      return None;
    }
    var base := CopyStrategy(cfg.value.strategy);
    FieldsDetermineStrategy(base, cfg.value.strategy);
    var strategy := base;
    var nodeLabels := node.value.labels;
    var entries := cfg.value.nodeConfigs;
    var i := 0;
    while i < |entries|
      invariant 0 <= i <= |entries|
      invariant strategy == base
      invariant Resolve(base, entries, nodeLabels, syntax) == Resolve(base, entries[i..], nodeLabels, syntax)
    {
      var nodeCfg := entries[i];
      assert entries[i..][1..] == entries[i + 1..];
      i := i + 1;
      var selector := AsSelector(nodeCfg.nodeSelector, syntax);
      if selector.Err? {
        continue;
      }
      if Matches(selector.value, nodeLabels) {
        if nodeCfg.nodeSelector.Some? {
          var merged := Merge(strategy, nodeCfg.cfg.strategy);
          if merged.Err? {
            continue;
          }
          strategy := merged.value;
        }
        break;
      }
    }
    return Some(strategy);
  }

  /** When no entry's selector parses and matches the node, the result is the default. */
  lemma NoMatchGivesDefault(base: ColocationStrategy, entries: seq<NodeColocationCfg>, labels: LabelSet, syntax: LabelSyntax)
    requires forall i :: 0 <= i < |entries| ==> !Selects(entries[i], labels, syntax)
    ensures Resolve(base, entries, labels, syntax) == base
  {
  }

  /** First match wins: when every entry before `i` lets the walk go on (its selector does not parse
      or match, or its merge fails) and entry `i` selects the node with a successful merge, the result
      is its override laid over the default, whatever later entries hold. */
  lemma {:induction false} FirstMatchWins(base: ColocationStrategy, entries: seq<NodeColocationCfg>, labels: LabelSet, syntax: LabelSyntax, i: nat)
    requires i < |entries|
    requires forall j :: 0 <= j < i ==> Step(base, entries[j], labels, syntax).None?
    requires Selects(entries[i], labels, syntax) && Merge(base, entries[i].cfg.strategy).Ok?
    ensures Resolve(base, entries, labels, syntax) == Overlay(base, entries[i].cfg.strategy)
  {
    if i > 0 {
      FirstMatchWins(base, entries[1..], labels, syntax, i - 1);
    }
  }

  /** An entry that does not stop the walk can be removed without changing the result. */
  lemma {:induction false} PassedEntryIrrelevant(base: ColocationStrategy, entries: seq<NodeColocationCfg>, labels: LabelSet, syntax: LabelSyntax, i: nat)
    requires i < |entries|
    requires Step(base, entries[i], labels, syntax).None?
    ensures Resolve(base, entries[..i] + entries[i + 1..], labels, syntax) == Resolve(base, entries, labels, syntax)
  {
    if i == 0 {
      assert entries[..0] + entries[1..] == entries[1..];
    } else {
      var rest := entries[1..];
      PassedEntryIrrelevant(base, rest, labels, syntax, i - 1);
      assert entries[..i] + entries[i + 1..] == [entries[0]] + (rest[..i - 1] + rest[i..]);
    }
  }

  /** An entry whose selector does not parse is skipped: the walk goes on with the later entries. */
  lemma UnparseableEntrySkipped(base: ColocationStrategy, entries: seq<NodeColocationCfg>, labels: LabelSet, syntax: LabelSyntax, i: nat)
    requires i < |entries|
    requires AsSelector(entries[i].nodeSelector, syntax).Err?
    ensures Resolve(base, entries[..i] + entries[i + 1..], labels, syntax) == Resolve(base, entries, labels, syntax)
  {
    PassedEntryIrrelevant(base, entries, labels, syntax, i);
  }

  /** An entry that matches but whose merge fails does not end the walk either: later entries are
      still tried. */
  lemma MergeFailureSkipped(base: ColocationStrategy, entries: seq<NodeColocationCfg>, labels: LabelSet, syntax: LabelSyntax, i: nat)
    requires i < |entries|
    requires Merge(base, entries[i].cfg.strategy).Err?
    ensures Resolve(base, entries[..i] + entries[i + 1..], labels, syntax) == Resolve(base, entries, labels, syntax)
  {
    PassedEntryIrrelevant(base, entries, labels, syntax, i);
  }

  /** A nil selector parses as labels.Nothing and so never matches: the branch that stops the walk
      without merging (the nil check inside the match) is never taken. */
  lemma NilSelectorNeverMatches(base: ColocationStrategy, e: NodeColocationCfg, labels: LabelSet, syntax: LabelSyntax)
    requires e.nodeSelector.None?
    ensures !Selects(e, labels, syntax) && Step(base, e, labels, syntax).None?
  {
  }

  /** A selector whose MatchLabels is empty, nil or not, matches every node. */
  lemma EmptySelectorMatchesAll(e: NodeColocationCfg, labels: LabelSet, syntax: LabelSyntax)
    requires e.nodeSelector.Some? && |RequiredLabels(e.nodeSelector.value)| == 0
    ensures Selects(e, labels, syntax)
  {
  }

  /** The result is the default or the override of an entry that selects the node, laid over the default. */
  lemma ResultIsDefaultOrMatchedOverlay(base: ColocationStrategy, entries: seq<NodeColocationCfg>, labels: LabelSet, syntax: LabelSyntax)
    ensures var r := Resolve(base, entries, labels, syntax);
      r == base || exists i :: 0 <= i < |entries| && Selects(entries[i], labels, syntax) && r == Overlay(base, entries[i].cfg.strategy)
  {
  }

  /** Only the strategy part of an entry's embedded configuration is read: entries that differ only
      in their nested node configurations resolve alike. */
  lemma {:induction false} NestedConfigsIgnored(base: ColocationStrategy, entries: seq<NodeColocationCfg>, others: seq<NodeColocationCfg>, labels: LabelSet, syntax: LabelSyntax)
    requires |entries| == |others|
    requires forall i :: 0 <= i < |entries| ==>
      entries[i].nodeSelector == others[i].nodeSelector && entries[i].cfg.strategy == others[i].cfg.strategy
    ensures Resolve(base, entries, labels, syntax) == Resolve(base, others, labels, syntax)
  {
    if |entries| > 0 {
      NestedConfigsIgnored(base, entries[1..], others[1..], labels, syntax);
    }
  }

  /** A valid default with valid overrides resolves to a valid strategy. */
  lemma ResolvePreservesValidity(base: ColocationStrategy, entries: seq<NodeColocationCfg>, labels: LabelSet, syntax: LabelSyntax)
    requires IsColocationStrategyValid(Some(base))
    requires forall i :: 0 <= i < |entries| ==> IsColocationStrategyValid(Some(entries[i].cfg.strategy))
    ensures IsColocationStrategyValid(Some(Resolve(base, entries, labels, syntax)))
  {
    var r := Resolve(base, entries, labels, syntax);
    if r != base {
      var i :| 0 <= i < |entries| && Step(base, entries[i], labels, syntax) == Some(r);
      OverlayPreservesValidity(base, entries[i].cfg.strategy);
    }
  }

  /** Passing the entry check does not make the resolved strategy valid: an entry with a negative
      CPU threshold passes it, and a node it selects gets that threshold. */
  lemma EntryCheckDoesNotGuardResult(syntax: LabelSyntax)
    requires syntax("zone", "a")
    ensures
      var over := EmptyStrategy().(cpuReclaimThresholdPercent := Some(-5));
      var e := NodeColocationCfg(Some(LabelSelector(Some(map["zone" := "a"]))), ColocationCfg(over, []));
      var r := Resolve(DefaultColocationStrategy(), [e], map["zone" := "a"], syntax);
      IsNodeColocationCfgValid(Some(e), syntax) && !IsColocationStrategyValid(Some(r))
  {
    var over := EmptyStrategy().(cpuReclaimThresholdPercent := Some(-5));
    var e := NodeColocationCfg(Some(LabelSelector(Some(map["zone" := "a"]))), ColocationCfg(over, []));
    EntryCheckIgnoresFieldValues(syntax);
    assert Selects(e, map["zone" := "a"], syntax);
    var r := Resolve(DefaultColocationStrategy(), [e], map["zone" := "a"], syntax);
    assert r.cpuReclaimThresholdPercent == Some(-5);
    assert Get(r, CPUReclaimThresholdPercent) == Some(IntValue(-5));
  }

  /** A node labelled zone=a, a default that disables colocation with a CPU threshold of 65, and a
      group for zone=a that enables it: the node gets colocation enabled with the threshold kept. */
  lemma ZoneOverrideExample(syntax: LabelSyntax)
    requires syntax("zone", "a")
    ensures
      var base := EmptyStrategy().(enable := Some(false), cpuReclaimThresholdPercent := Some(65));
      var group := NodeColocationCfg(Some(LabelSelector(Some(map["zone" := "a"]))),
                                     ColocationCfg(EmptyStrategy().(enable := Some(true)), []));
      Resolve(base, [group], map["zone" := "a"], syntax)
        == EmptyStrategy().(enable := Some(true), cpuReclaimThresholdPercent := Some(65))
  {
    var group := NodeColocationCfg(Some(LabelSelector(Some(map["zone" := "a"]))),
                                   ColocationCfg(EmptyStrategy().(enable := Some(true)), []));
    assert Selects(group, map["zone" := "a"], syntax);
  }
}
