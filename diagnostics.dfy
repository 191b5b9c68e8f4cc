/** Turning the error text of a failed completion call into the string the
    session hands back in place of a reply. */
module Diagnostics {
  import opened Text

  /** The fixed remediation text for quota and rate-limit failures (written in
      short pieces so that the verifier can look inside each literal). */
  const QuotaMessage: string :=
    "It looks like there's a quota issue " + "with your OpenAI account. " +
    "Please check:\n" +
    "1. Your " + "billing" + " is set up at " + "https://platform.openai.com/" + "account/billing\n" +
    "2. You have credits available\n" +
    "3. Your API key is valid and active"

  const QuotaMarker: string := "insufficient_quota"
  const RateLimitMarker: string := "429"

  /** The error text carries one of the two quota markers anywhere in it. */
  ghost predicate IsQuotaError(errorText: string) {
    Occurs(QuotaMarker, errorText) || Occurs(RateLimitMarker, errorText)
  }

  /** The diagnostic returned for a failure whose error text is `errorText`. */
  function Diagnose(errorText: string): string {
    if Contains(errorText, QuotaMarker) || Contains(errorText, RateLimitMarker) then
      QuotaMessage
    else
      "Error: " + errorText
  }

  /** A marker anywhere in the error text gives the remediation text, whichever
      marker it is; any other error text is returned behind "Error: ". */
  lemma {:induction false} DiagnoseSpec(errorText: string)
    ensures IsQuotaError(errorText) ==> Diagnose(errorText) == QuotaMessage
    ensures !IsQuotaError(errorText) ==> Diagnose(errorText) == "Error: " + errorText
  {
    ContainsSpec(errorText, QuotaMarker);
    ContainsSpec(errorText, RateLimitMarker);
  }

  /** The diagnostic tells a quota failure from any other: it is the
      remediation text exactly when a marker occurs. */
  lemma {:induction false} DiagnoseIsQuotaMessage(errorText: string)
    ensures Diagnose(errorText) == QuotaMessage <==> IsQuotaError(errorText)
  {
    DiagnoseSpec(errorText);
    if !IsQuotaError(errorText) {
      var head := "It looks like there's a quota issue ";
      assert QuotaMessage == head + QuotaMessage[|head|..];
      assert QuotaMessage[0] == 'I';
      assert ("Error: " + errorText)[0] == 'E';
    }
  }

  /** Distinct non-quota failures give distinct diagnostics: the error text can
      be read back from the diagnostic. */
  lemma {:induction false} DiagnoseRecoversErrorText(e1: string, e2: string)
    requires !IsQuotaError(e1) && !IsQuotaError(e2)
    requires Diagnose(e1) == Diagnose(e2)
    ensures e1 == e2
  {
    DiagnoseSpec(e1);
    DiagnoseSpec(e2);
    assert e1 == ("Error: " + e1)[7..];
  }

  /** A marker anywhere in the error text, whatever surrounds it, gives the
      remediation text. */
  lemma {:induction false} QuotaMarkerAnywhere(before: string, marker: string, after: string)
    requires marker == QuotaMarker || marker == RateLimitMarker
    ensures Diagnose(before + marker + after) == QuotaMessage
  {
    var e := before + marker + after;
    assert e[|before|..|before| + |marker|] == marker;
    assert OccursAt(marker, e, |before|);
    DiagnoseSpec(e);
  }

  /** The remediation text points the operator at the billing page. */
  lemma {:induction false} QuotaMessageMentionsBilling()
    ensures Occurs("billing", QuotaMessage)
  {
    assert OccursAt("billing", QuotaMessage, 84) by {
      var head := "It looks like there's a quota issue " + "with your OpenAI account. " +
        "Please check:\n" + "1. Your ";
      var tail := QuotaMessage[|head| + 7..];
      assert |head| == 84;
      assert QuotaMessage == head + "billing" + tail;
    }
  }
}
