/**
 * `call_gemini` of translator/translate_srt_gemini.py: one request to the
 * provider, and one more after a 10-second pause when the answer is empty or
 * blank.
 *
 * The provider is an oracle: a total function from a request (its sequence
 * number in the run, the cell it goes to and its text) to what the SDK gives
 * back, an answer text or a raised exception. A `None` response or a missing
 * `response.text` is `Answer("")`.
 */
module Gemini {
  import opened Text
  import opened Cooldown

  datatype Request = Request(number: nat, cell: Cell, text: string)
  datatype Reply = Answer(text: string) | Raised(message: string)
  type Provider = Request -> Reply

  datatype CallResult = Translated(text: string) | Failed(message: string)
  /** The result, the number of requests sent so far, and the clock afterwards. */
  datatype Call = Call(result: CallResult, sent: nat, now: nat)

  /** RETRY_EMPTY_RESPONSE_DELAY */
  const RetryEmptyResponseDelay: nat := 10
  const EmptyResponseMessage := "Réponse vide après 2 tentatives"

  /** `not response or not response.text or response.text.strip() == ""` */
  predicate IsBlank(r: Reply) {
    r.Answer? && Strip(r.text) == ""
  }

  /**
   * The outcome of `call_gemini` started with `retry_count = 0`, as the
   * specification of `CallGemini`: at most two requests, a second one only
   * after a blank answer, a text only when its strip is non-empty, and the
   * "empty response" error only after two blank answers.
   */
  function CallOutcome(provider: Provider, cell: Cell, text: string, sent: nat, now: nat): (c: Call)
    ensures sent < c.sent <= sent + 2 && now <= c.now
  {
    var first := provider(Request(sent, cell, text));
    if first.Raised? then Call(Failed(first.message), sent + 1, now)
    else if !IsBlank(first) then Call(Translated(first.text), sent + 1, now)
    else
      var second := provider(Request(sent + 1, cell, text));
      if second.Raised? then Call(Failed(second.message), sent + 2, now + RetryEmptyResponseDelay)
      else if !IsBlank(second) then Call(Translated(second.text), sent + 2, now + RetryEmptyResponseDelay)
      else Call(Failed(EmptyResponseMessage), sent + 2, now + RetryEmptyResponseDelay)
  }

  /**
   * What `CallOutcome` means: at most two requests, a second one only after a
   * blank answer and after the retry delay, a text only when its strip is
   * non-empty and it is what the last request got, the failure exactly when
   * the last request raised or was blank, and the "empty response" error after
   * two blank answers.
   */
  lemma CallOutcomeSpec(provider: Provider, cell: Cell, text: string, sent: nat, now: nat)
    ensures var c := CallOutcome(provider, cell, text, sent, now);
            && (c.sent == sent + 2 <==> IsBlank(provider(Request(sent, cell, text))))
            && c.now == (if c.sent == sent + 2 then now + RetryEmptyResponseDelay else now)
            && (c.result.Translated? ==>
                  Strip(c.result.text) != "" && provider(Request(c.sent - 1, cell, text)) == Answer(c.result.text))
            && (c.result.Failed? <==>
                  provider(Request(c.sent - 1, cell, text)).Raised? || IsBlank(provider(Request(c.sent - 1, cell, text))))
            && (IsBlank(provider(Request(sent, cell, text))) && IsBlank(provider(Request(sent + 1, cell, text))) ==>
                  c.result == Failed(EmptyResponseMessage))
  {
  }

  /**
   * `call_gemini`: the recursion on `retry_count` is a loop of at most two
   * attempts. An exception raised by the SDK is not caught here; it surfaces
   * as `Failed` with its message.
   */
  method CallGemini(provider: Provider, cell: Cell, text: string, sent: nat, now: nat) returns (c: Call)
    ensures c == CallOutcome(provider, cell, text, sent, now)
  {
    var retryCount := 0;
    var requests, clock := sent, now;
    while true
      invariant 0 <= retryCount <= 1
      invariant requests == sent + retryCount
      invariant clock == now + retryCount * RetryEmptyResponseDelay
      invariant retryCount == 1 ==> IsBlank(provider(Request(sent, cell, text)))
      decreases 1 - retryCount
    {
      var response := provider(Request(requests, cell, text));
      requests := requests + 1;
      if response.Raised? {
        return Call(Failed(response.message), requests, clock);
      }
      if Strip(response.text) != "" {
        return Call(Translated(response.text), requests, clock);
      }
      if retryCount < 1 {
        clock := clock + RetryEmptyResponseDelay;
        retryCount := retryCount + 1;
      } else {
        return Call(Failed(EmptyResponseMessage), requests, clock);
      }
    }
  }
}
