/** The Ruby ping service (`start.rb`): `ping_service` relays one pong answer,
    `mping_service` retries the pong service until it answers 200 and reports
    on the last answer. The calls to the pong service are a parameter: `call(n)`
    (`calls(n)(i)`) is the outcome of the (i-th) GET of `/pong/n`. */
module RubyPing {
  import opened Wrappers
  import opened PingpongHttp
  import opened RubyPong

  const PingRoute: string := "/ping/"
  const MpingRoute: string := "/mping/"

  /** `ping_service`: the pong answer's body is relayed with status 200,
      whatever the pong status; an unreadable length or a failed call gets
      the bad-request answer. */
  function PingService(path: string, integer: string -> Parsed, call: int -> Attempt): (r: Response)
    ensures r.status == StatusOk <==> integer(Sub(path, PingRoute)).Value? && call(integer(Sub(path, PingRoute)).n).Answered?
    ensures r.status == StatusOk ==> r.body == call(integer(Sub(path, PingRoute)).n).body
    ensures r.status != StatusOk ==> r.status == ServiceUnavailable && |path| <= |r.body| && r.body[..|path|] == path
  {
    match integer(Sub(path, PingRoute))
    case Invalid(message) => BadRequest(path, message)
    case Value(n) =>
      match call(n)
      case Raised(message) => BadRequest(path, message)
      case Answered(_, body) => Response(StatusOk, body)
  }

  /** Against a Ruby pong service that answers, `/ping/<s>` with `s` reading
      as `n >= 3` is answered with status 200 and `n` characters. */
  lemma PingRubyPong(s: string, integer: string -> Parsed, call: int -> Attempt)
    requires integer(s).Value? && integer(s).n >= 3
    requires call(integer(s).n) == Answered(StatusOk, PongBody(integer(s).n))
    ensures PingService(PingRoute + s, integer, call) == Response(StatusOk, PongBody(integer(s).n))
    ensures |PingService(PingRoute + s, integer, call).body| == integer(s).n
  {
    SubPrefix(PingRoute, s);
    PongBodyLength(integer(s).n);
  }

  /** A call that `mping_service` counts as a success. */
  predicate Succeeded(a: Attempt)
  {
    a.Answered? && a.status == StatusOk
  }

  /** The value of `answer` after the first `n` calls: the last call that
      did not raise, if any (a raising call leaves `answer` as it was). */
  function LastAnswer(attempts: nat -> Attempt, n: nat): (r: Option<Attempt>)
    ensures r.Some? ==> r.value.Answered?
    ensures r.Some? ==> exists j :: 0 <= j < n && attempts(j) == r.value
    ensures r.None? <==> forall j :: 0 <= j < n ==> attempts(j).Raised?
  {
    if n == 0 then None
    else if attempts(n - 1).Answered? then Some(attempts(n - 1))
    else LastAnswer(attempts, n - 1)
  }

  /** `answer` holds the last call that did not raise: every call after it
      raised. */
  lemma {:induction false} LastAnswerIsLast(attempts: nat -> Attempt, n: nat)
    ensures LastAnswer(attempts, n).Some? ==>
              exists j :: 0 <= j < n && attempts(j) == LastAnswer(attempts, n).value
                          && forall l :: j < l < n ==> attempts(l).Raised?
  {
    if n > 0 && attempts(n - 1).Raised? {
      LastAnswerIsLast(attempts, n - 1);
      if LastAnswer(attempts, n - 1).Some? {
        var j :| 0 <= j < n - 1 && attempts(j) == LastAnswer(attempts, n - 1).value
                 && forall l :: j < l < n - 1 ==> attempts(l).Raised?;
        assert forall l :: j < l < n ==> attempts(l).Raised?;
      }
    } else if n > 0 {
      assert attempts(n - 1) == LastAnswer(attempts, n).value;
    }
  }

  /** The length, status and retries `mping_service` reports: for the first
      success its body size, 200 and the number of earlier failed calls;
      after `MaxTries` failures the last answer's size and status, or 0 and
      503 when no call was answered at all. */
  function MpingReport(attempts: nat -> Attempt): Report
  {
    match First(attempts, MaxTries, Succeeded)
    case Some(k) => Report(|attempts(k).body|, StatusOk, k)
    case None =>
      match LastAnswer(attempts, MaxTries)
      case None => Report(0, ServiceUnavailable, MaxTries)
      case Some(a) => Report(|a.body|, a.status, MaxTries)
  }

  /** The report says 200 exactly when fewer than `MaxTries` calls failed,
      and then the call after those failures succeeded; otherwise every call
      failed, and status 503 with length 0 means that none was answered. */
  lemma {:induction false} MpingReportMeaning(attempts: nat -> Attempt)
    ensures var r := MpingReport(attempts);
            && 0 <= r.retries <= MaxTries
            && (r.status == StatusOk <==> r.retries < MaxTries)
            && (r.retries < MaxTries ==> Succeeded(attempts(r.retries)) && r.length == |attempts(r.retries).body|)
            && (forall i :: 0 <= i < r.retries ==> !Succeeded(attempts(i)))
            && ((forall i :: 0 <= i < MaxTries ==> attempts(i).Raised?) ==> r == Report(0, ServiceUnavailable, MaxTries))
  {
    match First(attempts, MaxTries, Succeeded)
    case Some(k) =>
    case None =>
      match LastAnswer(attempts, MaxTries)
      case None =>
      case Some(a) =>
        var j :| 0 <= j < MaxTries && attempts(j) == a;
        assert !Succeeded(attempts(j));
  }

  /** What `mping_service` answers: the report (its JSON text and duration
      are not modelled), or the bad-request answer for an unreadable length. */
  datatype MpingAnswer = Measured(report: Report) | Refused(response: Response)

  /** `mping_service`'s retry loop: at most `MaxTries` calls, stopping at the
      first answer with status 200. */
  method Retry(attempts: nat -> Attempt) returns (report: Report)
    ensures report == MpingReport(attempts)
  {
    var retries: nat := 0;
    var answer: Option<Attempt> := None;
    var success := false;
    while retries < MaxTries && !success
      invariant retries <= MaxTries
      invariant forall i :: 0 <= i < retries ==> !Succeeded(attempts(i))
      invariant success ==> retries < MaxTries && Succeeded(attempts(retries))
      invariant answer == LastAnswer(attempts, if success then retries + 1 else retries)
      decreases MaxTries - retries, if success then 0 else 1
    {
      match attempts(retries)
      case Raised(_) =>
        retries := retries + 1;
      case Answered(status, _) =>
        answer := Some(attempts(retries));
        success := status == StatusOk;
        if !success {
          retries := retries + 1;
        }
    }
    if success {
      FirstAt(attempts, MaxTries, Succeeded, retries);
      report := Report(|answer.value.body|, answer.value.status, retries);
    } else {
      FirstNone(attempts, MaxTries, Succeeded);
      report := Report(if answer == None then 0 else |answer.value.body|,
                       if answer == None then ServiceUnavailable else answer.value.status,
                       retries);
    }
  }

  /** `mping_service`: the length is read with `Integer` and the pong service
      is called with it until it answers 200 or `MaxTries` calls failed. */
  method MpingService(path: string, integer: string -> Parsed, calls: int -> (nat -> Attempt))
    returns (r: MpingAnswer)
    ensures integer(Sub(path, MpingRoute)).Invalid? ==> r == Refused(BadRequest(path, integer(Sub(path, MpingRoute)).message))
    ensures integer(Sub(path, MpingRoute)).Value? ==> r == Measured(MpingReport(calls(integer(Sub(path, MpingRoute)).n)))
  {
    match integer(Sub(path, MpingRoute))
    case Invalid(message) =>
      r := Refused(BadRequest(path, message));
    case Value(n) =>
      var report := Retry(calls(n));
      r := Measured(report);
  }
}
