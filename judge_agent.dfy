/** The keyword rules by which the pre-judge reads the agent's free-text
    answer (`JudgeAgent._parse_decision`) and the fall-backs of
    `JudgeAgent.judge`. */
module JudgeAgent {
  import opened Results
  import opened Text

  /** The three phrase lists the decision is read from: phrases that mean
      "no", phrases that mean "yes", and words of tone. */
  datatype Indicators = Indicators(no: seq<string>, yes: seq<string>, tone: seq<string>)

  /** The phrase lists of `_parse_decision`. */
  function DecisionIndicators(): Indicators {
    Indicators(
      ["does not need", "doesn't need", "does not exist", "doesn't exist",
       "clearly not present", "obviously absent", "definitely not",
       "conclusion: false", "conclusion: no", "decision: no", "decision: false",
       "answer: false", "answer: no"],
      ["needs to be backported", "should be backported", "requires backporting",
       "clearly present", "obviously exists", "definitely exists",
       "conclusion: true", "conclusion: yes", "decision: yes", "decision: true",
       "answer: true", "answer: yes"],
      ["vulnerability exists", "bug exists", "code is present", "found in"])
  }

  /** Some phrase of the list is a substring of `s`: the loop
      `for indicator in ...: if indicator in s` with its early return, or
      `any(word in s for word in ...)`. */
  function AnyIn(phrases: seq<string>, s: string): (r: bool)
    ensures r <==> exists i :: 0 <= i < |phrases| && Contains(s, phrases[i])
  {
    if phrases == [] then false
    else Contains(s, phrases[0]) || AnyIn(phrases[1..], s)
  }

  /** `_parse_decision`: on the lower-cased answer, a "no" phrase answers
      False before any "yes" phrase is looked at; a "yes" phrase, a word of
      tone and the default all answer True. */
  function ParseDecision(ind: Indicators, response: string): bool
  {
    var lower := Lower(response);
    if AnyIn(ind.no, lower) then false
    else if AnyIn(ind.yes, lower) then true
    else if AnyIn(ind.tone, lower) then true
    else true
  }

  /** The answer is False exactly when some "no" phrase occurs in the
      lower-cased response. */
  lemma ParseDecisionFalseIff(ind: Indicators, response: string)
    ensures !ParseDecision(ind, response)
        <==> exists i :: 0 <= i < |ind.no| && Contains(Lower(response), ind.no[i])
  {
  }

  /** A "no" phrase wins over any "yes" phrase present in the same answer. */
  lemma NoBeforeYes(ind: Indicators, response: string, i: nat, j: nat)
    requires i < |ind.no| && Contains(Lower(response), ind.no[i])
    requires j < |ind.yes| && Contains(Lower(response), ind.yes[j])
    ensures !ParseDecision(ind, response)
  {
  }

  /** An answer with no "no" phrase is True, whatever else it says. */
  lemma DefaultIsYes(ind: Indicators, response: string)
    requires forall i :: 0 <= i < |ind.no| ==> !Contains(Lower(response), ind.no[i])
    ensures ParseDecision(ind, response)
  {
  }

  /** The decision does not depend on the case of ASCII letters: an answer
      and its lower-cased form are read alike. */
  lemma CaseInsensitive(ind: Indicators, response: string)
    ensures ParseDecision(ind, Lower(response)) == ParseDecision(ind, response)
  {
    LowerIdempotent(response);
  }

  /** `judge`: an empty patch, or an agent that raises (Err), answers True;
      otherwise the answer is read from the agent's `output` text. */
  function Judge(ind: Indicators, patch: string, output: Result<string>): (r: bool)
    ensures patch == [] || output.Err? ==> r
    ensures patch != [] && output.Ok? ==> r == ParseDecision(ind, output.value)
  {
    if patch == [] then true
    else match output
      case Err(_) => true
      case Ok(response) => ParseDecision(ind, response)
  }
}
