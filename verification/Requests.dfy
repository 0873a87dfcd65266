/** The retry loop around one request. What the server answers to each attempt is
    a parameter; so is whether an attempt changed anything there. */
module Requests {
  datatype Response =
    | RequestError(effect: bool)
    | Status(code: nat, effect: bool)
    | Success(effect: bool)

  datatype Outcome = Returned | Raised

  const RETRIES: nat := 3

  predicate RetryableStatus(isGet: bool, code: nat) {
    code == 429 || (isGet && code in {502, 503, 504})
  }

  predicate Retryable(isGet: bool, r: Response) {
    match r
    case RequestError(_) => isGet
    case Status(code, _) => RetryableStatus(isGet, code)
    case Success(_) => false
  }

  /** Answers to a failed POST: status 429 means the request was not carried out. */
  ghost predicate Honest(answers: nat -> Response) {
    forall a :: answers(a).Status? && answers(a).code == 429 ==> !answers(a).effect
  }

  function Effects(answers: nat -> Response, attempts: nat): nat {
    if attempts == 0 then 0 else Effects(answers, attempts - 1) + (if answers(attempts - 1).effect then 1 else 0)
  }

  /** An answer worth another attempt: too many requests, and for a GET also a failed
      connection or a server that is not there. */
  ghost predicate Transient(isGet: bool, r: Response) {
    match r
    case RequestError(_) => isGet
    case Status(code, _) => code == 429 || (isGet && (code == 502 || code == 503 || code == 504))
    case Success(_) => false
  }

  /** The loop: `attempts` were made, all but the last of them retried. It returns exactly
      if one of the first four answers is a success and all before that are transient. */
  method RequestJson(isGet: bool, answers: nat -> Response) returns (outcome: Outcome, attempts: nat)
    ensures 1 <= attempts <= RETRIES + 1
    ensures forall a :: 0 <= a < attempts - 1 ==> Retryable(isGet, answers(a))
    ensures Retryable(isGet, answers(attempts - 1)) ==> attempts == RETRIES + 1
    ensures outcome.Returned? <==> answers(attempts - 1).Success?
    ensures outcome.Returned? <==>
              exists a :: 0 <= a < 4 && answers(a).Success? && forall b :: 0 <= b < a ==> Transient(isGet, answers(b))
  {
    var attempt := 0;
    while attempt <= RETRIES
      invariant 0 <= attempt <= RETRIES
      invariant forall a :: 0 <= a < attempt ==> Retryable(isGet, answers(a))
      decreases RETRIES + 1 - attempt
    {
      var response := answers(attempt);
      match response {
        case RequestError(_) =>
          if !(isGet && attempt < RETRIES) {
            return Raised, attempt + 1;
          }
        case Status(code, _) =>
          if !(RetryableStatus(isGet, code) && attempt < RETRIES) {
            return Raised, attempt + 1;
          }
        case Success(_) =>
          return Returned, attempt + 1;
      }
      attempt := attempt + 1;
    }
    assert false;
  }

  /** A POST changes something on the server at most once, at its last attempt. */
  lemma {:induction false} PostEffectsAtMostOnce(answers: nat -> Response, attempts: nat)
    requires Honest(answers) && attempts >= 1
    requires forall a :: 0 <= a < attempts - 1 ==> Retryable(false, answers(a))
    ensures Effects(answers, attempts - 1) == 0 && Effects(answers, attempts) <= 1
    ensures Effects(answers, attempts) == 1 <==> answers(attempts - 1).effect
  {
    if attempts > 1 {
      PostEffectsAtMostOnce(answers, attempts - 1);
    }
  }
}
