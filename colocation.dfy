/**
 * The colocation configuration of the SLO controller: the strategy record whose fields are all
 * optional, the cluster configuration with its ordered node-group entries, the built-in defaults,
 * the two validity checks, and the field-wise copy and merge the resolver applies
 * (pkg/slo-controller/config/config.go).
 */
module Colocation {
  import opened Wrappers
  import opened Labels

  /** Go's int64. */
  newtype int64 = x: int | -0x8000_0000_0000_0000 <= x < 0x8000_0000_0000_0000

  /** Go's float64, reduced to what the code observes of it: a finite value, an infinity, or NaN. */
  datatype Float64 = Finite(x: real) | PosInf | NegInf | NaN

  /** Go's `f > 0` on a float64: false for NaN and -Inf, true for +Inf. */
  predicate FloatPositive(f: Float64)
    ensures FloatPositive(f) ==> f != NaN && f != NegInf
    ensures f.Finite? ==> (FloatPositive(f) <==> f.x > 0.0)
  {
    match f
    case Finite(x) => x > 0.0
    case PosInf => true
    case NegInf => false
    case NaN => false
  }

  /** ColocationStrategy: six optional fields, None standing for a nil pointer. */
  datatype ColocationStrategy = ColocationStrategy(
    enable: Option<bool>,
    cpuReclaimThresholdPercent: Option<int64>,
    memoryReclaimThresholdPercent: Option<int64>,
    degradeTimeMinutes: Option<int64>,
    updateTimeThresholdSeconds: Option<int64>,
    resourceDiffThreshold: Option<Float64>)

  /** ColocationCfg: an embedded default strategy and the ordered node-group entries. */
  datatype ColocationCfg = ColocationCfg(strategy: ColocationStrategy, nodeConfigs: seq<NodeColocationCfg>)

  /** NodeColocationCfg: a (possibly nil) node selector and a whole embedded ColocationCfg,
      of which only the strategy part is ever read. */
  datatype NodeColocationCfg = NodeColocationCfg(nodeSelector: Option<LabelSelector>, cfg: ColocationCfg)

  /** The names of the six strategy fields, so that laws can be stated once for all of them. */
  datatype Field =
    | Enable
    | CPUReclaimThresholdPercent
    | MemoryReclaimThresholdPercent
    | DegradeTimeMinutes
    | UpdateTimeThresholdSeconds
    | ResourceDiffThreshold

  /** The value held by one field. */
  datatype FieldValue = BoolValue(b: bool) | IntValue(i: int64) | FloatValue(f: Float64)

  /** The value of field `f` of `s`, None when the field is unset. */
  function Get(s: ColocationStrategy, f: Field): Option<FieldValue>
  {
    match f
    case Enable => if s.enable.Some? then Some(BoolValue(s.enable.value)) else None
    case CPUReclaimThresholdPercent =>
      if s.cpuReclaimThresholdPercent.Some? then Some(IntValue(s.cpuReclaimThresholdPercent.value)) else None
    case MemoryReclaimThresholdPercent =>
      if s.memoryReclaimThresholdPercent.Some? then Some(IntValue(s.memoryReclaimThresholdPercent.value)) else None
    case DegradeTimeMinutes =>
      if s.degradeTimeMinutes.Some? then Some(IntValue(s.degradeTimeMinutes.value)) else None
    case UpdateTimeThresholdSeconds =>
      if s.updateTimeThresholdSeconds.Some? then Some(IntValue(s.updateTimeThresholdSeconds.value)) else None
    case ResourceDiffThreshold =>
      if s.resourceDiffThreshold.Some? then Some(FloatValue(s.resourceDiffThreshold.value)) else None
  }

  /** Two strategies that agree on every field are the same strategy. */
  lemma FieldsDetermineStrategy(a: ColocationStrategy, b: ColocationStrategy)
    requires forall f :: Get(a, f) == Get(b, f)
    ensures a == b
  {
    assert Get(a, Enable) == Get(b, Enable);
    assert Get(a, CPUReclaimThresholdPercent) == Get(b, CPUReclaimThresholdPercent);
    assert Get(a, MemoryReclaimThresholdPercent) == Get(b, MemoryReclaimThresholdPercent);
    assert Get(a, DegradeTimeMinutes) == Get(b, DegradeTimeMinutes);
    assert Get(a, UpdateTimeThresholdSeconds) == Get(b, UpdateTimeThresholdSeconds);
    assert Get(a, ResourceDiffThreshold) == Get(b, ResourceDiffThreshold);
  }

  /** The check a present field must pass for the strategy to be valid: numbers must be
      strictly positive, the Enable flag is never constrained. */
  predicate Acceptable(v: FieldValue)
  {
    match v
    case BoolValue(_) => true
    case IntValue(i) => i > 0
    case FloatValue(f) => FloatPositive(f)
  }

  /** The zero value ColocationStrategy{}: every field nil. */
  function EmptyStrategy(): (r: ColocationStrategy)
    ensures forall f :: Get(r, f).None?
  {
    ColocationStrategy(None, None, None, None, None, None)
  }

  /** DefaultColocationStrategy: every field set, colocation disabled, and the result valid. */
  function DefaultColocationStrategy(): (r: ColocationStrategy)
    ensures forall f :: Get(r, f).Some?
    ensures r.enable == Some(false)
    ensures IsColocationStrategyValid(Some(r))
  {
    ColocationStrategy(
      enable := Some(false),
      cpuReclaimThresholdPercent := Some(65),
      memoryReclaimThresholdPercent := Some(65),
      degradeTimeMinutes := Some(15),
      updateTimeThresholdSeconds := Some(300),
      resourceDiffThreshold := Some(Finite(0.1)))
  }

  /** DefaultColocationCfg: the default strategy and no node-group entries. */
  function DefaultColocationCfg(): (c: ColocationCfg)
    ensures forall f :: Get(c.strategy, f).Some?
    ensures IsColocationStrategyValid(Some(c.strategy))
    ensures |c.nodeConfigs| == 0
  {
    ColocationCfg(DefaultColocationStrategy(), [])
  }

  /** The field-by-field test of IsColocationStrategyValid is the same as "every present field is acceptable". */
  lemma FieldwiseValidity(s: ColocationStrategy)
    ensures
      (&& (s.cpuReclaimThresholdPercent.None? || s.cpuReclaimThresholdPercent.value > 0)
       && (s.memoryReclaimThresholdPercent.None? || s.memoryReclaimThresholdPercent.value > 0)
       && (s.degradeTimeMinutes.None? || s.degradeTimeMinutes.value > 0)
       && (s.updateTimeThresholdSeconds.None? || s.updateTimeThresholdSeconds.value > 0)
       && (s.resourceDiffThreshold.None? || FloatPositive(s.resourceDiffThreshold.value)))
      <==> forall f :: Get(s, f).Some? ==> Acceptable(Get(s, f).value)
  {
    forall f ensures
      (&& (s.cpuReclaimThresholdPercent.None? || s.cpuReclaimThresholdPercent.value > 0)
       && (s.memoryReclaimThresholdPercent.None? || s.memoryReclaimThresholdPercent.value > 0)
       && (s.degradeTimeMinutes.None? || s.degradeTimeMinutes.value > 0)
       && (s.updateTimeThresholdSeconds.None? || s.updateTimeThresholdSeconds.value > 0)
       && (s.resourceDiffThreshold.None? || FloatPositive(s.resourceDiffThreshold.value)))
      ==> (Get(s, f).Some? ==> Acceptable(Get(s, f).value))
    {
      if f == Enable {
      } else if f == CPUReclaimThresholdPercent {
      } else if f == MemoryReclaimThresholdPercent {
      } else if f == DegradeTimeMinutes {
      } else if f == UpdateTimeThresholdSeconds {
      } else {
        assert f == ResourceDiffThreshold;
      }
    }
    if forall f :: Get(s, f).Some? ==> Acceptable(Get(s, f).value) {
      assert Get(s, CPUReclaimThresholdPercent).Some? ==> Acceptable(Get(s, CPUReclaimThresholdPercent).value);
      assert Get(s, MemoryReclaimThresholdPercent).Some? ==> Acceptable(Get(s, MemoryReclaimThresholdPercent).value);
      assert Get(s, DegradeTimeMinutes).Some? ==> Acceptable(Get(s, DegradeTimeMinutes).value);
      assert Get(s, UpdateTimeThresholdSeconds).Some? ==> Acceptable(Get(s, UpdateTimeThresholdSeconds).value);
      assert Get(s, ResourceDiffThreshold).Some? ==> Acceptable(Get(s, ResourceDiffThreshold).value);
    }
  }

  /** IsColocationStrategyValid: the strategy is not nil and each present field is acceptable;
      an absent field never makes it invalid. */
  predicate IsColocationStrategyValid(strategy: Option<ColocationStrategy>)
    ensures IsColocationStrategyValid(strategy) <==>
      strategy.Some? && forall f :: Get(strategy.value, f).Some? ==> Acceptable(Get(strategy.value, f).value)
  {
    match strategy
    case None => false
    case Some(s) =>
      FieldwiseValidity(s);
      && (s.cpuReclaimThresholdPercent.None? || s.cpuReclaimThresholdPercent.value > 0)
      && (s.memoryReclaimThresholdPercent.None? || s.memoryReclaimThresholdPercent.value > 0)
      && (s.degradeTimeMinutes.None? || s.degradeTimeMinutes.value > 0)
      && (s.updateTimeThresholdSeconds.None? || s.updateTimeThresholdSeconds.value > 0)
      && (s.resourceDiffThreshold.None? || FloatPositive(s.resourceDiffThreshold.value))
  }

  /** IsNodeColocationCfgValid with the nil selector rejected: the entry is present, its selector and
      MatchLabels are not nil, the selector parses, and the override sets at least one field. The
      values of the fields are not checked. */
  predicate IsNodeColocationCfgValid(nodeCfg: Option<NodeColocationCfg>, syntax: LabelSyntax)
    ensures IsNodeColocationCfgValid(nodeCfg, syntax) <==>
      && nodeCfg.Some?
      && nodeCfg.value.nodeSelector.Some?
      && nodeCfg.value.nodeSelector.value.matchLabels.Some?
      && AsSelector(nodeCfg.value.nodeSelector, syntax).Ok?
      && exists f :: Get(nodeCfg.value.cfg.strategy, f).Some?
  {
    if nodeCfg.None? then false
    else if nodeCfg.value.nodeSelector.None? then false
    else if nodeCfg.value.nodeSelector.value.matchLabels.None? then false
    else if AsSelector(nodeCfg.value.nodeSelector, syntax).Err? then false
    else
      var s := nodeCfg.value.cfg.strategy;
      assert s != EmptyStrategy() <==> exists f :: Get(s, f).Some? by {
        if s != EmptyStrategy() {
          if forall f :: Get(s, f).None? {
            FieldsDetermineStrategy(s, EmptyStrategy());
          }
        }
      }
      s != EmptyStrategy()
  }

  /** IsNodeColocationCfgValid exactly as written: MatchLabels is read through the selector pointer
      without a nil check, so an entry whose selector is nil panics instead of being rejected.
      Whenever it returns, it agrees with IsNodeColocationCfgValid. */
  function IsNodeColocationCfgValidAsWritten(nodeCfg: Option<NodeColocationCfg>, syntax: LabelSyntax): (r: Outcome<bool>)
    ensures r.Panicked? <==> nodeCfg.Some? && nodeCfg.value.nodeSelector.None?
    ensures r.Returned? ==> r.value == IsNodeColocationCfgValid(nodeCfg, syntax)
  {
    if nodeCfg.None? then Returned(false)
    else if nodeCfg.value.nodeSelector.None? then Panicked
    else if nodeCfg.value.nodeSelector.value.matchLabels.None? then Returned(false)
    else if AsSelector(nodeCfg.value.nodeSelector, syntax).Err? then Returned(false)
    else Returned(nodeCfg.value.cfg.strategy != EmptyStrategy())
  }

  /** An entry with a nil selector and an otherwise sensible override makes the as-written check
      panic, where the corrected check answers false. */
  lemma NilSelectorPanics(syntax: LabelSyntax)
    ensures
      var e := NodeColocationCfg(None, ColocationCfg(DefaultColocationStrategy(), []));
      IsNodeColocationCfgValidAsWritten(Some(e), syntax) == Panicked && !IsNodeColocationCfgValid(Some(e), syntax)
  {
  }

  /** copier.Copy of a strategy into a fresh one: every field carried over. */
  function CopyStrategy(s: ColocationStrategy): (r: ColocationStrategy)
    ensures forall f :: Get(r, f) == Get(s, f)
  {
    ColocationStrategy(
      s.enable,
      s.cpuReclaimThresholdPercent,
      s.memoryReclaimThresholdPercent,
      s.degradeTimeMinutes,
      s.updateTimeThresholdSeconds,
      s.resourceDiffThreshold)
  }

  /** The per-field override util.Merge performs: a field set in `over` replaces the one in `base`,
      an unset one keeps it. */
  function Overlay(base: ColocationStrategy, over: ColocationStrategy): (r: ColocationStrategy)
    ensures forall f :: Get(r, f) == if Get(over, f).Some? then Get(over, f) else Get(base, f)
  {
    ColocationStrategy(
      if over.enable.Some? then over.enable else base.enable,
      if over.cpuReclaimThresholdPercent.Some? then over.cpuReclaimThresholdPercent else base.cpuReclaimThresholdPercent,
      if over.memoryReclaimThresholdPercent.Some? then over.memoryReclaimThresholdPercent else base.memoryReclaimThresholdPercent,
      if over.degradeTimeMinutes.Some? then over.degradeTimeMinutes else base.degradeTimeMinutes,
      if over.updateTimeThresholdSeconds.Some? then over.updateTimeThresholdSeconds else base.updateTimeThresholdSeconds,
      if over.resourceDiffThreshold.Some? then over.resourceDiffThreshold else base.resourceDiffThreshold)
  }

  /** The error util.Merge reports when it cannot encode a strategy as JSON. */
  datatype MergeError = UnsupportedValue

  /** Whether encoding/json can marshal the strategy: it refuses a NaN or infinite float. */
  predicate Marshalable(s: ColocationStrategy)
    ensures Marshalable(s) <==> forall f :: Get(s, f).Some? && Get(s, f).value.FloatValue? ==> Get(s, f).value.f.Finite?
  {
    assert Get(s, ResourceDiffThreshold).Some? ==> Get(s, ResourceDiffThreshold).value == FloatValue(s.resourceDiffThreshold.value);
    s.resourceDiffThreshold.None? || s.resourceDiffThreshold.value.Finite?
  }

  /** util.Merge(old, new): both sides are marshalled to JSON and the second is applied to the first
      as a merge patch.
      Unset fields are omitted from the JSON, so the result is the per-field overlay; marshalling
      fails on a NaN or infinite float in either side. */
  function Merge(base: ColocationStrategy, patch: ColocationStrategy): (r: Result<ColocationStrategy, MergeError>)
    ensures r.Ok? <==> Marshalable(base) && Marshalable(patch)
    ensures r.Ok? ==> r.value == Overlay(base, patch)
  {
    if !Marshalable(base) || !Marshalable(patch) then Err(UnsupportedValue)
    else Ok(Overlay(base, patch))
  }

  /** An override that sets only field `f` changes `f` alone. */
  lemma OverlaySingleField(base: ColocationStrategy, over: ColocationStrategy, f: Field)
    requires forall g :: g != f ==> Get(over, g).None?
    ensures forall g :: g != f ==> Get(Overlay(base, over), g) == Get(base, g)
    ensures Get(over, f).Some? ==> Get(Overlay(base, over), f) == Get(over, f)
  {
  }

  /** Overlaying the empty strategy changes nothing; overlaying onto it gives the override back. */
  lemma OverlayEmpty(s: ColocationStrategy)
    ensures Overlay(s, EmptyStrategy()) == s
    ensures Overlay(EmptyStrategy(), s) == s
  {
  }

  /** Applying the same override twice is the same as applying it once. */
  lemma OverlayIdempotent(base: ColocationStrategy, over: ColocationStrategy)
    ensures Overlay(Overlay(base, over), over) == Overlay(base, over)
  {
  }

  /** A valid override merged onto a valid base gives a valid strategy. */
  lemma OverlayPreservesValidity(base: ColocationStrategy, over: ColocationStrategy)
    requires IsColocationStrategyValid(Some(base)) && IsColocationStrategyValid(Some(over))
    ensures IsColocationStrategyValid(Some(Overlay(base, over)))
  {
  }

  /** The entry check looks only at the selector and at whether some field is set: an entry whose
      override sets a negative CPU threshold passes it, while the override itself is not a valid strategy. */
  lemma EntryCheckIgnoresFieldValues(syntax: LabelSyntax)
    requires syntax("zone", "a")
    ensures
      var over := EmptyStrategy().(cpuReclaimThresholdPercent := Some(-5));
      var e := NodeColocationCfg(Some(LabelSelector(Some(map["zone" := "a"]))), ColocationCfg(over, []));
      IsNodeColocationCfgValid(Some(e), syntax) && !IsColocationStrategyValid(Some(over))
  {
  }

  /** An entry whose MatchLabels is empty but not nil passes the entry check as soon as its
      override sets a field. */
  lemma EmptyMatchLabelsAccepted(over: ColocationStrategy, f: Field, syntax: LabelSyntax)
    requires Get(over, f).Some?
    ensures IsNodeColocationCfgValid(Some(NodeColocationCfg(Some(LabelSelector(Some(map[]))), ColocationCfg(over, []))), syntax)
  {
  }
}
