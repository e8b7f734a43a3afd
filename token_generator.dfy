/**
 * `TokenGeneratorTask`: sends an OTP to the operator's phone, reads the OTP
 * they type and has the server validate it, retrying with exponential
 * back-off while requests fail, and ending the program with exit code 1
 * after `MAX_ATTEMPTS` failed requests.
 *
 * The server is the function `reply`: the answer to the n-th request of the
 * run (counting from 0). The operator is the sequence of lines typed at the
 * OTP prompt. Sleeping is recorded as the list of back-off durations.
 */
module TokenGenerator {
  import opened Common
  import opened Text
  import opened ApiCalls

  const MaxAttempts: nat := 3
  const TaskBaseUrl: string := "https://qa.appv2.kyss.ai/apis"
  const SignInOtpEndpoint: string := "/accounts/signin/otp"
  const SignInValidateEndpoint: string := "/accounts/signin/otp/validate"

  /** The answer to one POST: a RequestException, or a reply whose JSON may carry a "token". */
  datatype Reply = Failed | Replied(token: Option<string>)

  /** What one line typed at the OTP prompt is taken as. */
  datatype Answer = Resend | Code(otp: string) | Invalid

  /** The checks of `get_otp_input`, in its order: "resend" in any case, then all digits. */
  function Classify(line: string): (a: Answer)
    ensures a == Resend <==> Lower(line) == "resend"
    ensures a.Code? <==> Lower(line) != "resend" && IsDigitString(line)
    ensures a.Code? ==> a.otp == line
  {
    if Lower(line) == "resend" then Resend
    else if IsDigitString(line) then Code(line)
    else Invalid
  }

  /**
   * `get_otp_input` from line `pos` on: None for "resend", the code for an
   * all-digit line, each other line re-prompted; the end of input is EOFError.
   * On success, also the position after the line that decided.
   */
  function OtpInput(lines: seq<string>, pos: nat): (r: Result<(Option<string>, nat)>)
    requires pos <= |lines|
    ensures r.Ok? ==> pos < r.value.1 <= |lines|
    ensures r.Err? ==> r.error == EOFError
    decreases |lines| - pos
  {
    if pos == |lines| then Err(EOFError)
    else
      match Classify(lines[pos])
      case Resend => Ok((None, pos + 1))
      case Code(otp) => Ok((Some(otp), pos + 1))
      case Invalid => OtpInput(lines, pos + 1)
  }

  /**
   * The line that decides is "resend" (in any case) for None, or the all-digit
   * code that is returned.
   */
  lemma {:induction false} OtpInputDecides(lines: seq<string>, pos: nat)
    requires pos <= |lines| && OtpInput(lines, pos).Ok?
    ensures var (otp, next) := OtpInput(lines, pos).value;
            (otp.None? <==> Lower(lines[next - 1]) == "resend") &&
            (otp.Some? ==> otp.value == lines[next - 1] && IsDigitString(otp.value))
    decreases |lines| - pos
  {
    match Classify(lines[pos])
    case Resend =>
      assert OtpInput(lines, pos) == Ok((None, pos + 1));
    case Code(otp) =>
      assert OtpInput(lines, pos) == Ok((Some(otp), pos + 1));
    case Invalid =>
      assert OtpInput(lines, pos) == OtpInput(lines, pos + 1);
      OtpInputDecides(lines, pos + 1);
  }

  /** Every line read before the deciding one (or before the end of input) was re-prompted. */
  lemma {:induction false} OtpInputSkipsInvalid(lines: seq<string>, pos: nat, j: nat)
    requires pos <= j < |lines|
    requires OtpInput(lines, pos).Ok? ==> j < OtpInput(lines, pos).value.1 - 1
    ensures Classify(lines[j]) == Invalid
    decreases |lines| - pos
  {
    if Classify(lines[pos]) == Invalid && j > pos {
      OtpInputSkipsInvalid(lines, pos + 1, j);
    }
  }

  /** The re-prompting loop of `get_otp_input`. */
  method GetOtpInput(lines: seq<string>, pos: nat) returns (r: Result<Option<string>>, next: nat)
    requires pos <= |lines|
    ensures r.Ok? <==> OtpInput(lines, pos).Ok?
    ensures r.Ok? ==> (r.value, next) == OtpInput(lines, pos).value
    ensures r.Err? ==> r.error == EOFError && next == |lines|
  {
    next := pos;
    while next < |lines|
      invariant pos <= next <= |lines|
      invariant OtpInput(lines, next) == OtpInput(lines, pos)
    {
      var otp := lines[next];
      if Lower(otp) == "resend" {
        assert OtpInput(lines, next) == Ok((None, next + 1));
        return Ok(None), next + 1;
      } else if IsDigitString(otp) {
        assert OtpInput(lines, next) == Ok((Some(otp), next + 1));
        return Ok(Some(otp)), next + 1;
      }
      assert OtpInput(lines, next) == OtpInput(lines, next + 1);
      next := next + 1;
    }
    assert OtpInput(lines, next) == Err(EOFError);
    return Err(EOFError), next;
  }

  /** 2 to the power `n`. */
  function Pow2(n: nat): (p: nat)
    ensures p >= 1
  {
    if n == 0 then 1 else 2 * Pow2(n - 1)
  }

  /** The sleeps of `wait_for_retry` after the first `a` failures: 2^1, ..., 2^a seconds. */
  function Backoff(a: nat): (w: seq<nat>)
    ensures |w| == a
  {
    if a == 0 then [] else Backoff(a - 1) + [Pow2(a)]
  }

  /** The sleeps of a whole run are at most 2, 4 and 8 seconds, in that order. */
  lemma BackoffValues(a: nat)
    requires a <= MaxAttempts
    ensures Backoff(a) == [2, 4, 8][..a]
  {
    assert Pow2(1) == 2 && Pow2(2) == 4 && Pow2(3) == 8;
    if a >= 1 {
      assert Backoff(1) == [2];
      if a >= 2 {
        assert Backoff(2) == [2, 4];
        if a == 3 {
          assert Backoff(3) == [2, 4, 8];
        }
      }
    }
  }

  /** The server's answer to request `n`. */
  function ReplyTo(reply: nat -> Reply, n: nat): Reply
  {
    reply(n)
  }

  /** How `execute` ends: a validated OTP (with the token it stored, if any), exit(1), or EOFError. */
  datatype Outcome = Validated(token: Option<string>) | Exhausted | InputEnded

  /**
   * How one pass through the `try` block of the `execute` loop ends: a
   * RequestException (the OTP could not be sent or validated), a "resend"
   * answer (the `continue`), or the end of the loop (`break` or EOFError).
   */
  datatype RoundEnd = RequestFailed | ResendAsked | Finished(outcome: Outcome)

  /** `validate_otp` stores the reply's token only when it is truthy. */
  function StoredToken(token: Option<string>): (t: Option<string>)
    ensures t.Some? <==> Truthy(token)
    ensures t.Some? ==> t == token
  {
    if Truthy(token) then token else None
  }

  /**
   * One pass through the `try` block with `requests` requests made and the
   * operator at line `pos`: how it ends, the requests made and the line
   * reached. Every pass makes one or two requests; a "resend" reads at
   * least one line.
   */
  function Round(reply: nat -> Reply, lines: seq<string>, requests: nat, pos: nat): (r: (RoundEnd, nat, nat))
    requires pos <= |lines|
    ensures requests < r.1 <= requests + 2 && pos <= r.2 <= |lines|
    ensures r.0 == ResendAsked ==> pos < r.2
    ensures r.0.Finished? ==> !r.0.outcome.Exhausted?
  {
    if ReplyTo(reply, requests).Failed? then (RequestFailed, requests + 1, pos)
    else
      match OtpInput(lines, pos)
      case Err(_) => (Finished(InputEnded), requests + 1, |lines|)
      case Ok((otp, next)) =>
        if otp.None? then (ResendAsked, requests + 1, next)
        else if ReplyTo(reply, requests + 1).Failed? then (RequestFailed, requests + 2, next)
        else (Finished(Validated(StoredToken(ReplyTo(reply, requests + 1).token))), requests + 2, next)
  }

  /** The `try` block: `send_otp`, `get_otp_input`, then `validate_otp` unless "resend" was typed. */
  method RunRound(reply: nat -> Reply, lines: seq<string>, requests: nat, pos: nat)
    returns (e: RoundEnd, made: nat, next: nat)
    requires pos <= |lines|
    ensures (e, made, next) == Round(reply, lines, requests, pos)
  {
    var sent := ReplyTo(reply, requests);
    made, next := requests + 1, pos;
    if sent.Failed? {
      return RequestFailed, made, next;
    }
    var otp, after := GetOtpInput(lines, pos);
    if otp.Err? {
      return Finished(InputEnded), made, |lines|;
    }
    next := after;
    if otp.value.None? {
      return ResendAsked, made, next;
    }
    var validated := ReplyTo(reply, made);
    made := made + 1;
    if validated.Failed? {
      return RequestFailed, made, next;
    }
    e := Finished(Validated(StoredToken(validated.token)));
  }

  /** Where a run stands: its outcome, failed requests, requests made and lines read. */
  datatype RunState = RunState(outcome: Outcome, attempts: nat, requests: nat, pos: nat)

  /**
   * The `execute` loop from `attempts` failures, `requests` requests made and
   * line `pos`: a failed request counts one attempt, a "resend" starts over
   * without one, and the loop stops after `MaxAttempts` attempts.
   */
  function Run(reply: nat -> Reply, lines: seq<string>, attempts: nat, requests: nat, pos: nat): (s: RunState)
    requires attempts <= MaxAttempts && pos <= |lines|
    ensures attempts <= s.attempts <= MaxAttempts && requests <= s.requests && pos <= s.pos <= |lines|
    ensures s.outcome.Exhausted? <==> s.attempts == MaxAttempts
    ensures s.outcome.Validated? ==> s.attempts < MaxAttempts
    decreases MaxAttempts - attempts, |lines| - pos
  {
    if attempts == MaxAttempts then RunState(Exhausted, attempts, requests, pos)
    else
      var (e, made, next) := Round(reply, lines, requests, pos);
      match e
      case RequestFailed => Run(reply, lines, attempts + 1, made, next)
      case ResendAsked => Run(reply, lines, attempts, made, next)
      case Finished(o) => RunState(o, attempts, made, next)
  }

  /** How many of the requests `lo` up to `hi` failed. */
  function Failures(reply: nat -> Reply, lo: nat, hi: nat): nat
    requires lo <= hi
    decreases hi - lo
  {
    if lo == hi then 0 else (if ReplyTo(reply, lo).Failed? then 1 else 0) + Failures(reply, lo + 1, hi)
  }

  lemma {:induction false} FailuresSplit(reply: nat -> Reply, lo: nat, mid: nat, hi: nat)
    requires lo <= mid <= hi
    ensures Failures(reply, lo, hi) == Failures(reply, lo, mid) + Failures(reply, mid, hi)
    decreases mid - lo
  {
    if lo < mid {
      FailuresSplit(reply, lo + 1, mid, hi);
    }
  }

  /** A pass counts as failed exactly when one of its requests failed, and then only one did. */
  lemma RoundFailures(reply: nat -> Reply, lines: seq<string>, requests: nat, pos: nat)
    requires pos <= |lines|
    ensures var (e, made, _) := Round(reply, lines, requests, pos);
            Failures(reply, requests, made) == if e == RequestFailed then 1 else 0
  {
    var (e, made, _) := Round(reply, lines, requests, pos);
    assert Failures(reply, made, made) == 0;
    if made == requests + 2 {
      assert Failures(reply, requests, made) == (if ReplyTo(reply, requests).Failed? then 1 else 0) + Failures(reply, requests + 1, made);
      assert Failures(reply, requests + 1, made) == (if ReplyTo(reply, requests + 1).Failed? then 1 else 0);
    }
  }

  /** Attempts are counted only by failed requests: a run ends with one attempt per failure. */
  lemma {:induction false} RunCountsFailures(reply: nat -> Reply, lines: seq<string>, attempts: nat, requests: nat, pos: nat)
    requires attempts <= MaxAttempts && pos <= |lines|
    ensures var s := Run(reply, lines, attempts, requests, pos);
            s.attempts == attempts + Failures(reply, requests, s.requests)
    decreases MaxAttempts - attempts, |lines| - pos
  {
    if attempts < MaxAttempts {
      var s := Run(reply, lines, attempts, requests, pos);
      var (e, made, next) := Round(reply, lines, requests, pos);
      RoundFailures(reply, lines, requests, pos);
      match e
      case RequestFailed =>
        assert s == Run(reply, lines, attempts + 1, made, next);
        RunCountsFailures(reply, lines, attempts + 1, made, next);
        FailuresSplit(reply, requests, made, s.requests);
      case ResendAsked =>
        assert s == Run(reply, lines, attempts, made, next);
        RunCountsFailures(reply, lines, attempts, made, next);
        FailuresSplit(reply, requests, made, s.requests);
      case Finished(o) =>
        assert s == RunState(o, attempts, made, next);
    }
  }

  /** `exit(1)` is reached exactly by an exhausted run. */
  function ExitCode(o: Outcome): (code: Option<int>)
    ensures code.Some? <==> o.Exhausted?
  {
    if o.Exhausted? then Some(1) else None
  }

  /** Whatever the server and the operator do, a run ends in one of its three ways, within the bounds. */
  lemma RunEnds(reply: nat -> Reply, lines: seq<string>)
    ensures var s := Run(reply, lines, 0, 0, 0);
            && s.attempts == Failures(reply, 0, s.requests) <= MaxAttempts
            && (ExitCode(s.outcome) == Some(1) <==> s.attempts == MaxAttempts)
            && (s.outcome.Validated? ==> s.attempts < MaxAttempts)
  {
    RunCountsFailures(reply, lines, 0, 0, 0);
  }

  class TokenGeneratorTask {
    const requester: SimpleRequests
    var phoneNumber: string
    var otpEndpoint: string
    var validateEndpoint: string

    /** `__init__`: a requester for the QA sign-in base URL, without a token. */
    constructor()
      ensures fresh(requester)
      ensures requester.baseUrl == TaskBaseUrl && requester.headers == map[]
    {
      requester := new SimpleRequests(TaskBaseUrl, None);
      phoneNumber := "";
      otpEndpoint := "";
      validateEndpoint := "";
    }

    /** `get_params` with the typed mobile number. */
    method GetParams(line: string)
      modifies this
      ensures phoneNumber == line
      ensures otpEndpoint == SignInOtpEndpoint && validateEndpoint == SignInValidateEndpoint
    {
      phoneNumber := line;
      otpEndpoint := SignInOtpEndpoint;
      validateEndpoint := SignInValidateEndpoint;
    }

    /**
     * `execute`: the retry loop. Returns how it ended, the failures counted,
     * the requests made, the lines read and the back-off sleeps taken.
     */
    method Execute(reply: nat -> Reply, lines: seq<string>)
      returns (outcome: Outcome, attempts: nat, requests: nat, pos: nat, waits: seq<nat>)
      ensures RunState(outcome, attempts, requests, pos) == Run(reply, lines, 0, 0, 0)
      ensures waits == Backoff(attempts)
    {
      attempts, requests, pos, waits := 0, 0, 0, [];
      ghost var whole := Run(reply, lines, 0, 0, 0);
      while attempts < MaxAttempts
        invariant attempts <= MaxAttempts && pos <= |lines|
        invariant Run(reply, lines, attempts, requests, pos) == whole
        invariant waits == Backoff(attempts)
        decreases MaxAttempts - attempts, |lines| - pos
      {
        var e;
        e, requests, pos := RunRound(reply, lines, requests, pos);
        if e.Finished? {
          return e.outcome, attempts, requests, pos, waits;
        } else if e == RequestFailed {
          attempts := attempts + 1;
          waits := waits + [Pow2(attempts)];
        }
      }
      outcome := Exhausted;
    }
  }
}
