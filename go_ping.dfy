/** The Go ping service (`Ping.go`): `get` maps one HTTP exchange to content,
    code and error; `pingHandler` relays the first error-free content and
    `mpingHandler` reports on it. The exchanges are a parameter:
    `exchanges(i)` is the outcome of the i-th GET of the pong service for the
    request's length. */
module GoPing {
  import opened Wrappers
  import opened PingpongHttp

  newtype byte = b: int | 0 <= b < 256

  /** One exchange with the pong service: `http.Get` failed, reading the
      body failed, or a response with its status and body bytes arrived. */
  datatype Exchange = GetFailed(error: string) | ReadFailed(error: string) | Received(status: int, body: seq<byte>)

  /** What `get` returns: content, code and error. */
  datatype Got = Got(content: seq<byte>, code: int, err: Option<string>)

  /** `get`: both failures give empty content, 503 and the error; a
      response gives its body and status, whatever the status. */
  function Get(x: Exchange): Got
  {
    match x
    case GetFailed(e) => Got([], ServiceUnavailable, Some(e))
    case ReadFailed(e) => Got([], ServiceUnavailable, Some(e))
    case Received(status, body) => Got(body, status, None)
  }

  /** The exchanges the handlers accept: those `get` reports no error for. */
  predicate NoError(x: Exchange)
  {
    Get(x).err.None?
  }

  /** `get` reports an error exactly for a failed exchange, and then the
      content is empty and the code 503. */
  lemma GetErrors(x: Exchange)
    ensures NoError(x) <==> x.Received?
    ensures !NoError(x) ==> Get(x).content == [] && Get(x).code == ServiceUnavailable
    ensures NoError(x) ==> Get(x).content == x.body && Get(x).code == x.status
  {
  }

  /** The bytes of `"Service unavailable"`. */
  const Unavailable: seq<byte> := [83, 101, 114, 118, 105, 99, 101, 32, 117, 110, 97, 118, 97, 105, 108, 97, 98, 108, 101]

  /** `pingHandler`: up to `MaxTries` exchanges; the first without error has
      its content written with status 200; after `MaxTries` errors, status
      503 and `Unavailable`. */
  method PingHandler(exchanges: nat -> Exchange) returns (status: int, body: seq<byte>)
    ensures status == StatusOk <==> exists i :: 0 <= i < MaxTries && exchanges(i).Received?
    ensures status != StatusOk ==> status == ServiceUnavailable && body == Unavailable
    ensures status == StatusOk ==> exists k :: 0 <= k < MaxTries && Relayed(exchanges, k) && body == exchanges(k).body
  {
    for i := 1 to MaxTries + 1
      invariant forall j :: 0 <= j < i - 1 ==> !exchanges(j).Received?
    {
      var got := Get(exchanges(i - 1));
      if got.err == None {
        assert Relayed(exchanges, i - 1);
        return StatusOk, got.content;
      }
    }
    return ServiceUnavailable, Unavailable;
  }

  /** The exchange `k` is the first one without error. */
  ghost predicate Relayed(exchanges: nat -> Exchange, k: nat)
  {
    exchanges(k).Received? && forall j :: 0 <= j < k ==> !exchanges(j).Received?
  }

  /** `mpingHandler`: the size of the first error-free content, the code it
      came with (whatever it is) and the number of exchanges before it; after
      `MaxTries` errors, length 0, code 503 and `MaxTries` retries. */
  method MpingHandler(exchanges: nat -> Exchange) returns (report: Report)
    ensures match First(exchanges, MaxTries, NoError)
            case Some(k) => report == Report(|exchanges(k).body|, exchanges(k).status, k)
            case None => report == Report(0, ServiceUnavailable, MaxTries)
  {
    for retries := 0 to MaxTries
      invariant forall j :: 0 <= j < retries ==> !NoError(exchanges(j))
    {
      var got := Get(exchanges(retries));
      if got.err == None {
        FirstAt(exchanges, MaxTries, NoError, retries);
        return Report(|got.content|, got.code, retries);
      }
    }
    FirstNone(exchanges, MaxTries, NoError);
    return Report(0, ServiceUnavailable, MaxTries);
  }

  /** The report counts fewer than `MaxTries` retries exactly when some
      exchange went through, and then the exchange after the retries did. */
  lemma MpingMeaning(exchanges: nat -> Exchange, report: Report)
    requires match First(exchanges, MaxTries, NoError)
             case Some(k) => report == Report(|exchanges(k).body|, exchanges(k).status, k)
             case None => report == Report(0, ServiceUnavailable, MaxTries)
    ensures 0 <= report.retries <= MaxTries
    ensures report.retries < MaxTries <==> exists i :: 0 <= i < MaxTries && exchanges(i).Received?
    ensures report.retries < MaxTries ==>
              && Relayed(exchanges, report.retries)
              && report.length == |exchanges(report.retries).body|
  {
    var p: Exchange -> bool := NoError;
    match First(exchanges, MaxTries, NoError)
    case Some(k) =>
      assert p(exchanges(k));
      GetErrors(exchanges(k));
      NoneReceived(exchanges, k);
      assert Relayed(exchanges, k);
    case None =>
      NoneReceived(exchanges, MaxTries);
  }

  /** Exchanges that `get` reports errors for were not received. */
  lemma NoneReceived(exchanges: nat -> Exchange, n: nat)
    requires forall i :: 0 <= i < n ==> !NoError(exchanges(i))
    ensures forall i :: 0 <= i < n ==> !exchanges(i).Received?
  {
    forall i | 0 <= i < n
      ensures !exchanges(i).Received?
    {
      GetErrors(exchanges(i));
    }
  }
}
