/** What the ping and pong services of the three implementations share: the
    status codes they answer with, the retry bound of the ping services, the
    outcome of one HTTP call to a pong service, and the shape of a pong body. */
module PingpongHttp {
  import opened Wrappers

  /** 200 OK, section 15.3.1 of RFC 9110. */
  const StatusOk: int := 200
  /** 503 Service Unavailable, section 15.6.4 of RFC 9110. */
  const ServiceUnavailable: int := 503
  /** 504 Gateway Timeout, section 15.6.5 of RFC 9110. */
  const GatewayTimeout: int := 504

  /** `MAX_TRIES` (Ruby), `RETRIES` (Java and Go): calls to the pong service
      per ping request. */
  const MaxTries: nat := 100

  datatype Response = Response(status: int, body: string)

  /** The outcome of one call to the pong service, as the HTTP client hands it
      over: an exception with its message, or a response. */
  datatype Attempt = Raised(message: string) | Answered(status: int, body: string)

  /** What `/mping` reports besides its timing. */
  datatype Report = Report(length: int, status: int, retries: int)

  /** The index of the first of the first `n` attempts that satisfies `p`. */
  function First<A>(attempts: nat -> A, n: nat, p: A -> bool): (r: Option<nat>)
    ensures r.Some? ==> r.value < n && p(attempts(r.value))
    ensures r.Some? ==> forall i :: 0 <= i < r.value ==> !p(attempts(i))
    ensures r.None? ==> forall i :: 0 <= i < n ==> !p(attempts(i))
  {
    if n == 0 then None
    else match First(attempts, n - 1, p)
      case Some(k) => Some(k)
      case None => if p(attempts(n - 1)) then Some(n - 1) else None
  }

  /** An attempt satisfying `p` after `k` that do not is the first one. */
  lemma FirstAt<A>(attempts: nat -> A, n: nat, p: A -> bool, k: nat)
    requires k < n && p(attempts(k))
    requires forall i :: 0 <= i < k ==> !p(attempts(i))
    ensures First(attempts, n, p) == Some(k)
  {
  }

  /** Without an attempt satisfying `p` there is nothing to find. */
  lemma FirstNone<A>(attempts: nat -> A, n: nat, p: A -> bool)
    requires forall i :: 0 <= i < n ==> !p(attempts(i))
    ensures First(attempts, n, p) == None
  {
  }

  /** `'o' * k` */
  function Os(k: nat): (r: string)
    ensures |r| == k
    ensures forall i :: 0 <= i < k ==> r[i] == 'o'
  {
    if k == 0 then "" else Os(k - 1) + "o"
  }

  /** `"p" + "o" * k + "ng"` */
  function Pong(k: nat): string
  {
    "p" + Os(k) + "ng"
  }

  /** A pong body: `p`, then only `o`s, then `ng`. */
  predicate IsPong(s: string)
  {
    && |s| >= 3
    && s[0] == 'p' && s[|s| - 2] == 'n' && s[|s| - 1] == 'g'
    && forall i :: 1 <= i < |s| - 2 ==> s[i] == 'o'
  }

  /** Every `Pong(k)` has the pong shape and `k + 3` characters. */
  lemma PongShape(k: nat)
    ensures IsPong(Pong(k)) && |Pong(k)| == k + 3
  {
    var s := Pong(k);
    assert |s| == k + 3;
    forall i | 1 <= i < |s| - 2
      ensures s[i] == 'o'
    {
      assert s[i] == Os(k)[i - 1];
    }
  }

  /** A string of the pong shape is `Pong` of its length less 3, so a pong
      body is determined by its length. */
  lemma PongOfShape(s: string)
    requires IsPong(s)
    ensures s == Pong(|s| - 3)
  {
    var t := Pong(|s| - 3);
    PongShape(|s| - 3);
    assert |t| == |s|;
    forall i | 0 <= i < |s|
      ensures s[i] == t[i]
    {
    }
  }
}
