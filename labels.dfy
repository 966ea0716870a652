/**
 * The part of the Kubernetes label-selector library that the colocation configuration relies on:
 * turning a metav1.LabelSelector into a labels.Selector (metav1.LabelSelectorAsSelector) and
 * matching a selector against a node's label set (Selector.Matches).
 *
 * Only MatchLabels is modelled. The library's rules for what a well-formed label key and value are
 * (qualified names, length limits) are not restated here: every operation takes them as the
 * parameter `syntax`, so each property below holds whatever those rules are.
 */
module Labels {
  import opened Wrappers

  /** A node's labels (labels.Set). */
  type LabelSet = map<string, string>

  /** Whether the library accepts `key=value` as an equality requirement. */
  type LabelSyntax = (string, string) -> bool

  /** metav1.LabelSelector restricted to MatchLabels; `None` is a nil map. */
  datatype LabelSelector = LabelSelector(matchLabels: Option<map<string, string>>)

  /** A parsed selector: labels.Nothing(), labels.Everything(), or a conjunction of key=value requirements. */
  datatype Selector = Nothing | Everything | Conjunction(required: map<string, string>)

  /** The error LabelSelectorAsSelector reports for a requirement the library refuses. */
  datatype ParseError = InvalidRequirement

  /** The MatchLabels of a selector, a nil map reading as the empty one (as `len` does in Go). */
  function RequiredLabels(ps: LabelSelector): (m: map<string, string>)
    ensures ps.matchLabels.Some? ==> m == ps.matchLabels.value
    ensures ps.matchLabels.None? ==> |m| == 0
  {
    match ps.matchLabels
    case None => map[]
    case Some(m) => m
  }

  /** metav1.LabelSelectorAsSelector: a nil selector selects nothing, one without requirements selects
      everything, and otherwise every key=value pair becomes a requirement, any refused pair being an error. */
  function AsSelector(ps: Option<LabelSelector>, syntax: LabelSyntax): (r: Result<Selector, ParseError>)
    ensures ps.None? ==> r == Ok(Nothing)
    ensures r.Err? <==> ps.Some? && exists k :: k in RequiredLabels(ps.value) && !syntax(k, RequiredLabels(ps.value)[k])
    ensures ps.Some? && |RequiredLabels(ps.value)| == 0 ==> r == Ok(Everything)
    ensures r.Ok? && ps.Some? && |RequiredLabels(ps.value)| != 0 ==> r == Ok(Conjunction(RequiredLabels(ps.value)))
  {
    match ps
    case None => Ok(Nothing)
    case Some(sel) =>
      var m := RequiredLabels(sel);
      if |m| == 0 then Ok(Everything)
      else if forall k | k in m :: syntax(k, m[k]) then Ok(Conjunction(m))
      else Err(InvalidRequirement)
  }

  /** Selector.Matches: a conjunction holds when the node carries every required key with the required value. */
  function Matches(sel: Selector, labels: LabelSet): (b: bool)
    ensures sel.Nothing? ==> !b
    ensures sel.Everything? ==> b
    ensures sel.Conjunction? ==> (b <==> sel.required.Items <= labels.Items)
  {
    match sel
    case Nothing => false
    case Everything => true
    case Conjunction(required) =>
      var ok := forall k | k in required :: k in labels && labels[k] == required[k];
      assert ok ==> required.Items <= labels.Items by {
        if ok {
          forall p | p in required.Items ensures p in labels.Items {
            assert p.0 in required && required[p.0] == p.1;
          }
        }
      }
      assert required.Items <= labels.Items ==> ok by {
        if required.Items <= labels.Items {
          forall k | k in required ensures k in labels && labels[k] == required[k] {
            assert (k, required[k]) in required.Items;
          }
        }
      }
      ok
  }
}
