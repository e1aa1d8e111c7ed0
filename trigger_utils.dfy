/**
 * The name of the background-job queue a document conversion is sent to,
 * derived from the team's billing plan (`conversionQueue` in
 * lib/utils/trigger-utils.ts).  A plan name may carry a `+` suffix such as
 * `business+old`; the queue is chosen by the base plan before the first `+`.
 */
module TriggerUtils {
  import opened Text

  const QueuePrefix: string := "conversion-"

  /**
   * `conversion-` followed by `plan.split("+")[0]`: the longest prefix of the
   * plan that holds no `+`.
   */
  function ConversionQueue(plan: string): (queue: string)
    ensures StartsWith(queue, QueuePrefix)
    ensures var base := queue[|QueuePrefix|..];
      && StartsWith(plan, base)
      && '+' !in base
      && (|base| == |plan| || plan[|base|] == '+')
  {
    QueuePrefix + SplitHead(plan, '+')
  }

  /** A plan without `+` is used as it is. */
  lemma PlainPlanQueue(plan: string)
    requires '+' !in plan
    ensures ConversionQueue(plan) == QueuePrefix + plan
  {
    assert plan[..|plan|] == plan;
  }

  /** Whatever follows the first `+` does not change the queue. */
  lemma SuffixIgnored(plan: string, suffix: string)
    requires '+' !in plan
    ensures ConversionQueue(plan + "+" + suffix) == ConversionQueue(plan)
  {
    var full := plan + "+" + suffix;
    assert full[|plan|] == '+';
    assert forall j | 0 <= j < |plan| :: full[j] == plan[j];
    assert FirstIndexOf(full, '+') == |plan|;
    assert full[..|plan|] == plan;
    PlainPlanQueue(plan);
  }

  /** Example: the legacy plan `business+old` shares the `business` queue. */
  lemma LegacyBusinessQueue(plan: string)
    requires plan == "business+old"
    ensures ConversionQueue(plan) == "conversion-business"
  {
    var base := "business";
    assert plan == base + "+" + "old";
    assert plan[8] == '+';
    assert forall j | 0 <= j < 8 :: plan[j] != '+';
    assert FirstIndexOf(plan, '+') == 8;
    assert plan[..8] == base;
    assert QueuePrefix + base == "conversion-business";
  }
}
