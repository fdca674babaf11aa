/**
 * Worked verdicts for the classification of src/App.jsx: the verdicts the
 * prompt asks the model for, the verdicts the client fills in itself, and a
 * verdict that matches two rules. Each is split in two steps: what the
 * lowercased text holds, then the category the rules give it.
 */
module VerdictExamples {
  import opened Wrappers
  import opened Text
  import opened App

  lemma AiGeneratedPhrases(v: string)
    requires v == "ai-generated"
    ensures AiPhrase(v)
  {
    assert StartsWith(v, "ai-generated");
  }

  /** The verdict the prompt asks for on an AI-generated image is `Ai`. */
  lemma AiGeneratedVerdict(verdict: string)
    requires verdict == "AI-Generated"
    ensures VerdictCategory(Some(verdict)) == Ai
  {
    assert Lower(verdict) == "ai-generated";
    AiGeneratedPhrases(Lower(verdict));
    VerdictFirstMatch(verdict);
  }

  lemma ManipulatedPhrases(v: string)
    requires v == "modified/manipulated"
    ensures !AiPhrase(v) && ModifiedPhrase(v)
  {
    NoAiPhraseWithout(v);
    assert StartsWith(v, "modified");
  }

  /** The verdict the prompt asks for on a manipulated image is `Modified`. */
  lemma ManipulatedVerdict(verdict: string)
    requires verdict == "Modified/Manipulated"
    ensures VerdictCategory(Some(verdict)) == Modified
  {
    assert Lower(verdict) == "modified/manipulated";
    ManipulatedPhrases(Lower(verdict));
    VerdictFirstMatch(verdict);
  }

  lemma AuthenticPhrases(v: string)
    requires v == "authentic"
    ensures !AiPhrase(v) && !ModifiedPhrase(v) && AuthenticPhrase(v)
  {
    NoAiOrModifiedPhraseWithout(v);
    assert StartsWith(v, "authentic");
  }

  /** The verdict the prompt asks for on an authentic image is `Authentic`. */
  lemma AuthenticVerdict(verdict: string)
    requires verdict == "Authentic"
    ensures VerdictCategory(Some(verdict)) == Authentic
  {
    assert Lower(verdict) == "authentic";
    AuthenticPhrases(Lower(verdict));
    VerdictFirstMatch(verdict);
  }

  /** The verdict the client fills in when the model gave none is `Unknown`. */
  lemma DefaultVerdictUnknown(verdict: string)
    requires verdict == "Unknown"
    ensures VerdictCategory(Some(verdict)) == Unknown
  {
    assert Lower(verdict) == "unknown";
    NoPhraseWithout(Lower(verdict));
    VerdictFirstMatch(verdict);
  }

  lemma FallbackLowered(verdict: string)
    requires verdict == "Analysis Complete"
    ensures Lower(verdict) == "analysis complete"
  {
  }

  lemma FallbackPhrases(v: string)
    requires v == "analysis complete"
    ensures !AiPhrase(v) && !ModifiedPhrase(v) && !AuthenticPhrase(v)
  {
    NoPhraseWithout(v);
  }

  /** The verdict of the degraded record is `Unknown`. */
  lemma FallbackVerdictUnknown(verdict: string)
    requires verdict == "Analysis Complete"
    ensures VerdictCategory(Some(verdict)) == Unknown
  {
    FallbackLowered(verdict);
    FallbackPhrases(Lower(verdict));
    VerdictFirstMatch(verdict);
  }

  lemma AuthenticModifiedPhrases(v: string)
    requires v == "authentic/modified"
    ensures !AiPhrase(v) && ModifiedPhrase(v) && AuthenticPhrase(v)
  {
    NoAiPhraseWithout(v);
    assert StartsWith(v, "authentic");
    assert v[10..] == "modified";
    OccursContains(v, "modified", 10);
  }

  /** A verdict holding both "authentic" and "modified" is `Modified`: the second rule is checked before the third. */
  lemma ModifiedBeforeAuthentic(verdict: string)
    requires verdict == "Authentic/Modified"
    ensures AuthenticPhrase(Lower(verdict))
    ensures VerdictCategory(Some(verdict)) == Modified
  {
    assert Lower(verdict) == "authentic/modified";
    AuthenticModifiedPhrases(Lower(verdict));
    VerdictFirstMatch(verdict);
  }
}
