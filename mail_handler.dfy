/** `EmailVerificationHandler`: one poll of the temporary inbox
    (`_get_latest_mail_code`), the bounded delete loop (`_cleanup_mail`) and
    the bounded retry loop around them (`get_verification_code`).

    The provider's HTTP answers are inputs: a `Reply` per request, in the
    order the handler issues the requests. Sleeps are counted, not timed. */
module MailHandler {
  import opened Wrappers
  import opened JsonValues
  import opened CodePattern

  // ---------------------------------------------------------------------
  // _get_latest_mail_code
  // ---------------------------------------------------------------------

  /** What one call of `_get_latest_mail_code` does: it raises, or it returns
      the pair `(verify_code, first_id)`. */
  datatype Fetch = FetchRaised | Fetched(code: Option<string>, firstId: Option<Json>)

  /** `mail_detail_data.get("text", "")` as `re.search` sees it: a missing key
      gives the empty text, a string is the text, and anything else (JSON
      `null` included) makes `re.search` raise, shown here as `None`. */
  function MailText(detail: map<string, Json>): (r: Option<string>)
    ensures "text" !in detail ==> r == Some("")
    ensures "text" in detail && detail["text"].JString? ==> r == Some(detail["text"].s)
    ensures "text" in detail && !detail["text"].JString? ==> r.None?
  {
    match Get(detail, "text")
    case None => Some("")
    case Some(JString(s)) => Some(s)
    case Some(_) => None
  }

  /** One poll of the inbox, given the answers to the list request and to the
      detail request (the latter is only read when the detail request is
      issued). Decoding a body that is not a JSON object, or a failed request,
      raises. The list answer's falsy `result`, a falsy `first_id` and the
      detail answer's falsy `result` each give `(None, None)`; otherwise the
      mail text goes through the extractor. */
  function LatestMailCode(listReply: Reply, detailReply: Reply): (r: Fetch)
    ensures r.Fetched? && r.code.Some? ==> IsSixDigits(r.code.value)
    ensures r.Fetched? && r.code.Some? ==> r.firstId.Some? && IsTruthy(r.firstId.value)
    ensures r.Fetched? && r.code.None? ==> r.firstId.None?
  {
    if !listReply.Parsed? || !listReply.doc.JObject? then FetchRaised
    else
      var list := listReply.doc.fields;
      if !IsTruthyOpt(Get(list, "result")) then Fetched(None, None)
      else
        var firstId := Get(list, "first_id");
        if !IsTruthyOpt(firstId) then Fetched(None, None)
        else if !detailReply.Parsed? || !detailReply.doc.JObject? then FetchRaised
        else
          var detail := detailReply.doc.fields;
          if !IsTruthyOpt(Get(detail, "result")) then Fetched(None, None)
          else
            match MailText(detail)
            case None => FetchRaised
            case Some(text) =>
              match ExtractCode(text)
              case Some(code) => Fetched(Some(code), firstId)
              case None => Fetched(None, None)
  }

  /** The list answer decodes to an object whose `result` is falsy. */
  predicate ListResultFalsy(listReply: Reply)
  {
    listReply.Parsed? && listReply.doc.JObject? && !IsTruthyOpt(Get(listReply.doc.fields, "result"))
  }

  /** The list answer decodes to an object whose `result` is truthy but whose
      `first_id` is falsy. */
  predicate FirstIdFalsy(listReply: Reply)
  {
    listReply.Parsed? && listReply.doc.JObject? && IsTruthyOpt(Get(listReply.doc.fields, "result"))
    && !IsTruthyOpt(Get(listReply.doc.fields, "first_id"))
  }

  /** The list answer passes both of its gates. */
  predicate ListGatesPass(listReply: Reply)
  {
    listReply.Parsed? && listReply.doc.JObject? && IsTruthyOpt(Get(listReply.doc.fields, "result"))
    && IsTruthyOpt(Get(listReply.doc.fields, "first_id"))
  }

  /** The three gates: a falsy list `result` or a falsy `first_id` gives
      `(None, None)` whatever the detail request would have answered (it is
      not issued); a falsy detail `result` gives `(None, None)` whatever the
      mail text. */
  lemma GatingYieldsNothing(listReply: Reply, detailReply: Reply)
    ensures ListResultFalsy(listReply) || FirstIdFalsy(listReply) ==>
      LatestMailCode(listReply, detailReply) == Fetched(None, None)
    ensures (ListGatesPass(listReply) && detailReply.Parsed? && detailReply.doc.JObject?
             && !IsTruthyOpt(Get(detailReply.doc.fields, "result"))) ==>
      LatestMailCode(listReply, detailReply) == Fetched(None, None)
  {
  }

  /** When a poll raises: the list request fails or its body is not a JSON
      object; or, past the list's gates, the detail request fails or its body
      is not a JSON object; or, past the detail's gate, `text` is present but
      not a string. Every other poll returns a pair. */
  lemma PollRaises(listReply: Reply, detailReply: Reply)
    ensures LatestMailCode(listReply, detailReply) == FetchRaised <==>
      !(listReply.Parsed? && listReply.doc.JObject?)
      || (ListGatesPass(listReply)
          && (!(detailReply.Parsed? && detailReply.doc.JObject?)
              || (IsTruthyOpt(Get(detailReply.doc.fields, "result"))
                  && MailText(detailReply.doc.fields).None?)))
  {
  }

  /** Past the gates, the poll returns the extractor's code paired with the
      list's `first_id`, or `(None, None)` when the text holds no code; a
      missing `text` key reads as the empty text, which holds no code. */
  lemma PollReturnsExtractedCode(listReply: Reply, detailReply: Reply, text: string)
    requires ListGatesPass(listReply)
    requires detailReply.Parsed? && detailReply.doc.JObject?
    requires IsTruthyOpt(Get(detailReply.doc.fields, "result"))
    requires MailText(detailReply.doc.fields) == Some(text)
    ensures LatestMailCode(listReply, detailReply) ==
      if ExtractCode(text).Some?
      then Fetched(ExtractCode(text), Get(listReply.doc.fields, "first_id"))
      else Fetched(None, None)
    ensures "text" !in detailReply.doc.fields ==> LatestMailCode(listReply, detailReply) == Fetched(None, None)
  {
  }

  // ---------------------------------------------------------------------
  // _cleanup_mail
  // ---------------------------------------------------------------------

  /** `_cleanup_mail` sends at most this many delete requests. */
  const DeleteTries := 5

  /** A delete answer whose decoded `result` is exactly `True`. */
  predicate Accepted(reply: Reply)
  {
    reply.Parsed? && reply.doc.JObject? && Get(reply.doc.fields, "result") == Some(JBool(true))
  }

  /** A delete answer that ends the loop: the request raised (the exception
      leaves `_cleanup_mail`), or the deletion was accepted. Every other answer
      (not JSON, not an object, any other `result`) is a failure that leads to
      another try. */
  predicate Decisive(reply: Reply)
  {
    reply.RequestFailed? || Accepted(reply)
  }

  /** The outcome of the delete loop from try `k` on. */
  function CleanupFrom(replies: seq<Reply>, k: nat): Outcome<bool>
    requires k <= DeleteTries <= |replies|
    decreases DeleteTries - k
  {
    if k == DeleteTries then Returned(false)
    else if replies[k].RequestFailed? then Raised
    else if Accepted(replies[k]) then Returned(true)
    else CleanupFrom(replies, k + 1)
  }

  /** What `_cleanup_mail` does, given the answers to its delete requests. */
  function CleanupOutcome(replies: seq<Reply>): Outcome<bool>
    requires DeleteTries <= |replies|
  {
    CleanupFrom(replies, 0)
  }

  /** The delete loop returns `False` exactly when all five answers are
      failures; otherwise the first decisive answer decides: `True` when it
      accepted the deletion, an exception when its request raised. */
  lemma {:induction false} CleanupOutcomeFirstDecisive(replies: seq<Reply>, k: nat)
    requires k <= DeleteTries <= |replies|
    ensures CleanupFrom(replies, k) == Returned(false) <==>
      forall m :: k <= m < DeleteTries ==> !Decisive(replies[m])
    ensures forall n :: (k <= n < DeleteTries && Decisive(replies[n])
                         && forall m :: k <= m < n ==> !Decisive(replies[m])) ==>
      CleanupFrom(replies, k) == if Accepted(replies[n]) then Returned(true) else Raised
    decreases DeleteTries - k
  {
    if k < DeleteTries {
      CleanupOutcomeFirstDecisive(replies, k + 1);
    }
  }

  /** `_cleanup_mail`: send delete requests until one is accepted, one raises,
      or five have failed, sleeping after each failure. Returns the outcome,
      the number of requests sent and the number of sleeps. */
  method CleanupMail(replies: seq<Reply>) returns (r: Outcome<bool>, sent: nat, sleeps: nat)
    requires DeleteTries <= |replies|
    ensures r == CleanupOutcome(replies)
    ensures 1 <= sent <= DeleteTries
    ensures forall m :: 0 <= m < sent - 1 ==> !Decisive(replies[m])
    ensures Decisive(replies[sent - 1]) || sent == DeleteTries
    ensures r == Returned(true) <==> Accepted(replies[sent - 1])
    ensures r == Raised <==> replies[sent - 1].RequestFailed?
    ensures sleeps == if Decisive(replies[sent - 1]) then sent - 1 else sent
  {
    sent, sleeps := 0, 0;
    while sent < DeleteTries
      invariant sent <= DeleteTries
      invariant sleeps == sent
      invariant forall m :: 0 <= m < sent ==> !Decisive(replies[m])
      invariant CleanupFrom(replies, sent) == CleanupOutcome(replies)
    {
      var reply := replies[sent];
      sent := sent + 1;
      if reply.RequestFailed? {
        return Raised, sent, sleeps;
      }
      if Accepted(reply) {
        return Returned(true), sent, sleeps;
      }
      sleeps := sleeps + 1;
    }
    r := Returned(false);
  }

  // ---------------------------------------------------------------------
  // get_verification_code
  // ---------------------------------------------------------------------

  /** The provider's answers during one attempt: to the list request, to the
      detail request, and to the delete requests should a cleanup run. */
  datatype AttemptScript = AttemptScript(listReply: Reply, detailReply: Reply, deleteReplies: seq<Reply>)

  /** An attempt's script answers every delete request the cleanup may send. */
  predicate WellScripted(a: AttemptScript)
  {
    DeleteTries <= |a.deleteReplies|
  }

  /** What one attempt did: whether it raised or returned a code (or `None`),
      and the `first_id` the cleanup was called with, if it was called. */
  datatype AttemptResult = AttemptResult(outcome: Outcome<Option<string>>, cleanedId: Option<Json>)

  /** One pass of the `try` block: poll, clean up when a code and its
      `first_id` came back, return the code. An exception from the poll or
      from the cleanup makes the attempt raise. */
  function RunAttempt(a: AttemptScript): AttemptResult
    requires WellScripted(a)
  {
    match LatestMailCode(a.listReply, a.detailReply)
    case FetchRaised => AttemptResult(Raised, None)
    case Fetched(code, firstId) =>
      if code.Some? && firstId.Some? then
        AttemptResult(if CleanupOutcome(a.deleteReplies).Raised? then Raised else Returned(code), firstId)
      else
        AttemptResult(Returned(code), None)
  }

  /** One pass of the `try` block, as code: poll, then run the delete loop
      when a code and its `first_id` came back. */
  method TryAttempt(a: AttemptScript) returns (result: AttemptResult)
    requires WellScripted(a)
    ensures result == RunAttempt(a)
  {
    match LatestMailCode(a.listReply, a.detailReply) {
      case FetchRaised =>
        result := AttemptResult(Raised, None);
      case Fetched(code, firstId) =>
        if code.Some? && firstId.Some? {
          var cleaned, _, _ := CleanupMail(a.deleteReplies);
          result := AttemptResult(if cleaned.Raised? then Raised else Returned(code), firstId);
        } else {
          result := AttemptResult(Returned(code), None);
        }
    }
  }

  /** Cleanup pairing: the cleanup runs exactly when the poll found a code,
      and then with the poll's `first_id`, which is truthy (never `None`). A
      returned code is six digits and was cleaned up after. */
  lemma CleanupPairing(a: AttemptScript)
    requires WellScripted(a)
    ensures RunAttempt(a).cleanedId.Some? <==>
      LatestMailCode(a.listReply, a.detailReply).Fetched? && LatestMailCode(a.listReply, a.detailReply).code.Some?
    ensures RunAttempt(a).cleanedId.Some? ==>
      RunAttempt(a).cleanedId == LatestMailCode(a.listReply, a.detailReply).firstId
      && IsTruthy(RunAttempt(a).cleanedId.value)
    ensures RunAttempt(a).outcome.Returned? && RunAttempt(a).outcome.value.Some? ==>
      IsSixDigits(RunAttempt(a).outcome.value.value) && RunAttempt(a).cleanedId.Some?
      && CleanupOutcome(a.deleteReplies).Returned?
  {
  }

  /** `get_verification_code(max_retries)`: up to `maxRetries` attempts; the
      first attempt that does not raise ends the loop with its result, even a
      `None` one; an attempt that raises is followed by a sleep, except the
      last, after which the method raises. With `maxRetries <= 0` no attempt is
      made and the method raises. Returns the outcome, one `AttemptResult` per
      attempt made, and the number of retry sleeps. */
  method GetVerificationCode(maxRetries: int, script: seq<AttemptScript>)
    returns (r: Outcome<Option<string>>, log: seq<AttemptResult>, sleeps: nat)
    requires maxRetries <= |script|
    requires forall i :: 0 <= i < |script| ==> WellScripted(script[i])
    ensures |log| <= |script|
    ensures maxRetries <= 0 ==> log == [] && r == Raised
    ensures maxRetries > 0 ==> 1 <= |log| <= maxRetries
    ensures forall i :: 0 <= i < |log| ==> log[i] == RunAttempt(script[i])
    ensures forall i :: 0 <= i < |log| - 1 ==> log[i].outcome.Raised?
    ensures |log| > 0 ==> r == log[|log| - 1].outcome
    ensures r.Raised? ==> |log| == if maxRetries <= 0 then 0 else maxRetries
    ensures sleeps == if |log| == 0 then 0 else |log| - 1
  {
    log, sleeps := [], 0;
    var attempt := 0;
    while attempt < maxRetries
      invariant 0 <= attempt <= if maxRetries <= 0 then 0 else maxRetries - 1
      invariant |log| == attempt && sleeps == attempt
      invariant forall i :: 0 <= i < attempt ==> log[i] == RunAttempt(script[i])
      invariant forall i :: 0 <= i < attempt ==> log[i].outcome.Raised?
    {
      var result := TryAttempt(script[attempt]);
      log := log + [result];
      if result.outcome.Returned? {
        return result.outcome, log, sleeps;
      }
      if attempt < maxRetries - 1 {
        sleeps := sleeps + 1;
      } else {
        return Raised, log, sleeps;
      }
      attempt := attempt + 1;
    }
    r := Raised;
  }
}
