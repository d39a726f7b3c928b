/**
 * The governor data of runtime/ResourceQuota.java and runtime/ResourceExhaustionError.java:
 * an immutable record of five int limits with their defaults, and the four limit kinds
 * with the fixed description each one reports.
 */
module Quota {
  /** A Java `int`. */
  type Int32 = i: int | -0x8000_0000 <= i < 0x8000_0000

  const DefaultMaxEvaluationDepth: Int32 := 500
  const DefaultMaxLoopIterations: Int32 := 10000
  const DefaultMaxVariableCount: Int32 := 1000
  const DefaultMaxEvaluationSteps: Int32 := 100000
  const DefaultMaxStringLength: Int32 := 1000000

  /** The five limits. Any int is accepted, without validation. */
  datatype ResourceQuota = ResourceQuota(
    maxEvaluationDepth: Int32,
    maxLoopIterations: Int32,
    maxVariableCount: Int32,
    maxEvaluationSteps: Int32,
    maxStringLength: Int32)

  /** The four-argument constructor: the given limits and the default string length. */
  function QuotaWithDefaultStringLength(depth: Int32, loops: Int32, variables: Int32, steps: Int32): (q: ResourceQuota)
    ensures q.maxStringLength == DefaultMaxStringLength
    ensures q.(maxStringLength := 0) == ResourceQuota(depth, loops, variables, steps, 0)
  {
    ResourceQuota(depth, loops, variables, steps, DefaultMaxStringLength)
  }

  /** The no-argument constructor. */
  function DefaultQuota(): (q: ResourceQuota)
    ensures q == QuotaWithDefaultStringLength(500, 10000, 1000, 100000)
    ensures q.maxEvaluationDepth < q.maxVariableCount < q.maxLoopIterations < q.maxEvaluationSteps < q.maxStringLength
  {
    ResourceQuota(DefaultMaxEvaluationDepth, DefaultMaxLoopIterations, DefaultMaxVariableCount,
                  DefaultMaxEvaluationSteps, DefaultMaxStringLength)
  }

  /** ResourceLimitType. */
  datatype LimitType = EvaluationDepth | LoopIterations | VariableCount | EvaluationSteps

  /** getDescription: the message every error of this kind carries. */
  function Description(t: LimitType): (s: string)
    ensures |s| > 8 && s[..8] == "Maximum "
    ensures s[|s| - 8..] == "exceeded"
  {
    match t
    case EvaluationDepth => "Maximum call stack depth exceeded"
    case LoopIterations => "Maximum loop iterations exceeded"
    case VariableCount => "Maximum variable count exceeded"
    case EvaluationSteps => "Maximum execution steps exceeded"
  }

  /** Distinct kinds have distinct descriptions, so the message tells the kind. */
  lemma DescriptionInjective(a: LimitType, b: LimitType)
    requires Description(a) == Description(b)
    ensures a == b
  {
  }
}
