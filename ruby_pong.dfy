/** The Ruby pong service, `pong_service`, which `pong.rb` and `start.rb`
    define identically, and what the Ruby services share: removing the route
    prefix from the request path with `String#sub`, Ruby's `Integer(...)`, and
    the bad-request answer. */
module RubyPong {
  import opened PingpongHttp

  /** The outcome of Ruby's `Integer(s)`: the value, or the message of the
      exception it raises. Its grammar (signs, underscores, radix prefixes,
      surrounding blanks) is Ruby's and is taken as a parameter. */
  datatype Parsed = Value(n: int) | Invalid(message: string)

  /** `pattern` occurs in `s` at index `i`. */
  predicate OccursAt(s: string, pattern: string, i: int)
  {
    0 <= i && i + |pattern| <= |s| && s[i..i + |pattern|] == pattern
  }

  /** `s.sub(pattern, "")` with a string pattern: the first occurrence of
      `pattern` removed, or `s` itself when there is none. */
  function Sub(s: string, pattern: string): (r: string)
    requires pattern != []
    decreases |s|
  {
    if |s| < |pattern| then s
    else if s[..|pattern|] == pattern then s[|pattern|..]
    else [s[0]] + Sub(s[1..], pattern)
  }

  /** An occurrence in `s[1..]` is one in `s`, one place later. */
  lemma OccursShift(s: string, pattern: string, i: int)
    requires s != [] && 0 <= i
    ensures OccursAt(s[1..], pattern, i) <==> OccursAt(s, pattern, i + 1)
  {
    if 0 <= i && i + |pattern| <= |s| - 1 {
      assert s[1..][i..i + |pattern|] == s[i + 1..i + 1 + |pattern|];
    }
  }

  /** Without an occurrence of `pattern`, `Sub` changes nothing. */
  lemma {:induction false} SubAbsent(s: string, pattern: string)
    requires pattern != []
    requires forall i :: !OccursAt(s, pattern, i)
    ensures Sub(s, pattern) == s
  {
    assert !OccursAt(s, pattern, 0);
    if |s| >= |pattern| {
      forall i
        ensures !OccursAt(s[1..], pattern, i)
      {
        if 0 <= i {
          OccursShift(s, pattern, i);
        }
      }
      SubAbsent(s[1..], pattern);
    }
  }

  /** `Sub` removes the first occurrence of `pattern` and keeps what is
      around it. */
  lemma {:induction false} SubFirst(s: string, pattern: string, k: int)
    requires pattern != []
    requires OccursAt(s, pattern, k)
    requires forall i :: 0 <= i < k ==> !OccursAt(s, pattern, i)
    ensures Sub(s, pattern) == s[..k] + s[k + |pattern|..]
    decreases k
  {
    if k > 0 {
      assert !OccursAt(s, pattern, 0);
      forall i | 0 <= i < k - 1
        ensures !OccursAt(s[1..], pattern, i)
      {
        OccursShift(s, pattern, i);
      }
      OccursShift(s, pattern, k - 1);
      SubFirst(s[1..], pattern, k - 1);
      assert [s[0]] + s[1..][..k - 1] == s[..k];
      assert s[1..][k - 1 + |pattern|..] == s[k + |pattern|..];
    }
  }

  /** A request path that starts with the route prefix loses exactly it. */
  lemma SubPrefix(pattern: string, rest: string)
    requires pattern != []
    ensures Sub(pattern + rest, pattern) == rest
  {
    var s := pattern + rest;
    assert s[..|pattern|] == pattern;
    assert s[|pattern|..] == rest;
  }

  /** The body `"p#{ 'o' * (length < 0 ? 1 : length) }ng"` for the requested
      length `n`, with `length = n - 3`. */
  function PongBody(n: int): string
  {
    Pong(if n - 3 < 0 then 1 else n - 3)
  }

  /** The pong body has the requested length from 3 on; below 3 it is
      `"pong"`; it always has the pong shape. */
  lemma PongBodyLength(n: int)
    ensures IsPong(PongBody(n))
    ensures n >= 3 ==> |PongBody(n)| == n
    ensures n < 3 ==> PongBody(n) == "pong"
  {
    var k := if n - 3 < 0 then 1 else n - 3;
    PongShape(k);
    if n < 3 {
      assert Os(1) == "o";
    }
  }

  /** The answer of the rescue clause: status 503 and the path followed by the
      exception's message. */
  function BadRequest(path: string, message: string): (r: Response)
    ensures r.status == ServiceUnavailable
    ensures |path| <= |r.body| && r.body[..|path|] == path
    ensures r.body[|path|..] == " is a bad request.\n" + message
  {
    Response(ServiceUnavailable, path + " is a bad request.\n" + message)
  }

  const PongRoute: string := "/pong/"

  /** `pong_service`: the path less `/pong/` is read with `Integer`; a number
      is answered with status 200 (WEBrick's default) and the pong body, an
      exception with the bad-request answer. */
  function PongService(path: string, integer: string -> Parsed): Response
  {
    match integer(Sub(path, PongRoute))
    case Value(n) => Response(StatusOk, PongBody(n))
    case Invalid(message) => BadRequest(path, message)
  }

  /** A pong answer is either 200 with a pong body or 503 naming the path. */
  lemma PongServiceAnswers(path: string, integer: string -> Parsed)
    ensures var r := PongService(path, integer);
            (r.status == StatusOk && IsPong(r.body)) || (r.status == ServiceUnavailable && |path| <= |r.body| && r.body[..|path|] == path)
  {
    match integer(Sub(path, PongRoute))
    case Value(n) => PongBodyLength(n);
    case Invalid(_) =>
  }

  /** A request `/pong/<s>` whose `s` reads as `n` is answered with status 200
      and a pong body of `n` characters when `n` is at least 3. */
  lemma PongServiceLength(s: string, integer: string -> Parsed)
    requires integer(s).Value? && integer(s).n >= 3
    ensures PongService(PongRoute + s, integer).status == StatusOk
    ensures |PongService(PongRoute + s, integer).body| == integer(s).n
  {
    SubPrefix(PongRoute, s);
    PongBodyLength(integer(s).n);
  }
}
