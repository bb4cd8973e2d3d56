/** When a recognised frame counts as a match for the current prompt. */
module Matching {

  /** What the recognizer reports for one frame: the pose label and its confidence. */
  datatype Classification = Classification(pose: string, confidence: real)

  /** The recognizer must be more than this confident. */
  const MatchThreshold: real := 0.8
  /** At least this many milliseconds (2 s) must separate two matches. */
  const CooldownMs: int := 2000

  /** The frame shows the prompted pose, confidently enough, and long enough after
      the previous match. Both comparisons are strict. */
  predicate IsMatch(c: Classification, prompt: string, lastMatched: int, now: int) {
    && c.pose == prompt
    && c.confidence > MatchThreshold
    && now - lastMatched > CooldownMs
  }

  /** A confidence of exactly 0.8 is not enough; 0.81 is. */
  lemma ThresholdIsStrict(prompt: string, lastMatched: int, now: int)
    ensures !IsMatch(Classification(prompt, 0.8), prompt, lastMatched, now)
    ensures now - lastMatched > CooldownMs ==> IsMatch(Classification(prompt, 0.81), prompt, lastMatched, now)
  {
  }

  /** Exactly 2 s after a match is still inside the cooldown; 1 ms later is not. */
  lemma CooldownIsStrict(c: Classification, prompt: string, lastMatched: int)
    ensures !IsMatch(c, prompt, lastMatched, lastMatched + CooldownMs)
    ensures c.pose == prompt && c.confidence > MatchThreshold ==>
      IsMatch(c, prompt, lastMatched, lastMatched + CooldownMs + 1)
  {
  }

  /** A label other than the prompt never matches, however confident. */
  lemma WrongLabelNeverMatches(c: Classification, prompt: string, lastMatched: int, now: int)
    requires c.pose != prompt
    ensures !IsMatch(c, prompt, lastMatched, now)
  {
  }

  /** A match stays a match with more confidence or at a later time. */
  lemma MatchIsMonotone(c: Classification, d: Classification, prompt: string, lastMatched: int, now: int, later: int)
    requires IsMatch(c, prompt, lastMatched, now)
    requires d.pose == c.pose && d.confidence >= c.confidence && later >= now
    ensures IsMatch(d, prompt, lastMatched, later)
  {
  }
}
