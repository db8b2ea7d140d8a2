/** `apply_bedrock_guardrails`: whether the guardrail lets a user message
    through, as the request pipeline reads the value it returns. */
module Guardrail {
  import opened Maybe

  const Intervened: string := "GUARDRAIL_INTERVENED"

  /** Outcome of the `apply_guardrail` call: it raised, or it answered with
      or without an `action` entry. */
  datatype GuardrailCall = CallRaised | Answered(action: Option<string>)

  /** The Python value returned: a plain boolean, or the tuple `(True, [])`
      returned when no guardrail is configured. */
  datatype Verdict = Flag(allowed: bool) | FlagWithFindings(allowed: bool, findings: seq<string>)

  /** Python truthiness, as `if not input_allowed` reads the verdict: a
      non-empty tuple is true whatever it holds. */
  predicate Truthy(v: Verdict) {
    match v
    case Flag(b) => b
    case FlagWithFindings(_, _) => true
  }

  /** The message is blocked exactly when `GUARDRAIL_ID` is set and the
      call answered that it intervened; an unconfigured guardrail, a failed
      call, a missing action or any other action lets the message through. */
  function ApplyBedrockGuardrails(guardrailId: Option<string>, call: GuardrailCall): (v: Verdict)
    ensures Truthy(v) <==> !(EnvSet(guardrailId) && call == Answered(Some(Intervened)))
    ensures !Truthy(v) ==> v == Flag(false)
  {
    if !EnvSet(guardrailId) then FlagWithFindings(true, [])
    else
      match call
      case CallRaised => Flag(true)
      case Answered(None) => Flag(true)
      case Answered(Some(action)) => Flag(action != Intervened)
  }
}
