/** The Java ping service (`Ping.java`): `get` calls the pong service until a
    call goes through, and the `/ping` and `/mping` handlers judge its content
    by the requested length. The calls are a parameter: `calls(n)(i)` is the
    outcome of the i-th GET of `/pong/n`. */
module JavaPing {
  import opened Wrappers
  import opened PingpongHttp
  import opened JavaPong
  import opened Measurements

  /** The content `get` hands back when every call failed. */
  const NoConnection: string := "no connection possible"

  /** The map `get` returns: its "content" and its "retries". */
  datatype Answer = Answer(content: string, retries: nat)

  /** A call that goes through: `URL.openStream` raises for a failed
      connection and for an error status (400 and up). */
  predicate Delivered(a: Attempt)
  {
    a.Answered? && a.status < 400
  }

  /** The lines `readLine` returns, appended: the body without its line
      terminators (`\n`, `\r` and `\r\n`). */
  function Unlined(body: string): (r: string)
    ensures |r| <= |body|
    ensures forall i :: 0 <= i < |r| ==> r[i] != '\n' && r[i] != '\r'
    ensures '\n' !in body && '\r' !in body ==> r == body
  {
    if body == [] then []
    else if body[0] == '\n' || body[0] == '\r' then Unlined(body[1..])
    else [body[0]] + Unlined(body[1..])
  }

  /** A character that `readLine` keeps: anything but a line terminator. */
  predicate InLine(c: char)
  {
    c != '\n' && c != '\r'
  }

  /** Appending the lines keeps every other character of the body, in order:
      the content is the body with its terminators selected out. */
  lemma {:induction false} UnlinedKeeps(body: string)
    ensures Unlined(body) == Select(body, InLine)
  {
    if body != [] {
      UnlinedKeeps(body[1..]);
    }
  }

  /** What `get` returns: the content of the first call that goes through
      and the number of calls that failed before it, or `NoConnection` and
      `MaxTries` when all of them failed. */
  function Fetch(attempts: nat -> Attempt): Answer
  {
    match First(attempts, MaxTries, Delivered)
    case Some(k) => Answer(Unlined(attempts(k).body), k)
    case None => Answer(NoConnection, MaxTries)
  }

  /** `get` counts at most `MaxTries` failures; it stops short of that bound
      exactly when some call went through, and then the content is that of
      the call after the failures. */
  lemma FetchMeaning(attempts: nat -> Attempt)
    ensures Fetch(attempts).retries <= MaxTries
    ensures Fetch(attempts).retries < MaxTries <==> exists i :: 0 <= i < MaxTries && Delivered(attempts(i))
    ensures Fetch(attempts).retries < MaxTries ==>
              && Delivered(attempts(Fetch(attempts).retries))
              && Fetch(attempts).content == Unlined(attempts(Fetch(attempts).retries).body)
    ensures forall i :: 0 <= i < Fetch(attempts).retries ==> !Delivered(attempts(i))
    ensures Fetch(attempts).retries == MaxTries ==> Fetch(attempts).content == NoConnection
  {
    var f := First(attempts, MaxTries, Delivered);
    var p: Attempt -> bool := Delivered;
    if f.Some? {
      assert p(attempts(f.value));
    }
  }

  /** `get`: a loop of at most `MaxTries` calls that returns at the first one
      going through. */
  method Get(attempts: nat -> Attempt) returns (answer: Answer)
    ensures answer == Fetch(attempts)
  {
    var retries: nat := 0;
    while retries < MaxTries
      invariant retries <= MaxTries
      invariant forall i :: 0 <= i < retries ==> !Delivered(attempts(i))
    {
      var a := attempts(retries);
      if Delivered(a) {
        FirstAt(attempts, MaxTries, Delivered, retries);
        return Answer(Unlined(a.body), retries);
      }
      retries := retries + 1;
    }
    FirstNone(attempts, MaxTries, Delivered);
    return Answer(NoConnection, retries);
  }

  /** `String.length()`: UTF-16 code units, two for a character beyond the
      Basic Multilingual Plane. */
  function Utf16Length(s: string): (n: nat)
    ensures |s| <= n <= 2 * |s|
  {
    if s == [] then 0 else (if s[0] as int < 0x1_0000 then 1 else 2) + Utf16Length(s[1..])
  }

  /** The length of `getBytes("UTF-8")`: one to four bytes per character. */
  function Utf8Length(s: string): (n: nat)
    ensures |s| <= n <= 4 * |s|
  {
    if s == [] then 0
    else
      (if s[0] as int < 0x80 then 1 else if s[0] as int < 0x800 then 2 else if s[0] as int < 0x1_0000 then 3 else 4)
      + Utf8Length(s[1..])
  }

  predicate IsAscii(s: string)
  {
    forall i :: 0 <= i < |s| ==> s[i] as int < 0x80
  }

  /** UTF-8 never takes fewer units than UTF-16, and the two agree with the
      character count on ASCII text. */
  lemma {:induction false} EncodedLengths(s: string)
    ensures Utf16Length(s) <= Utf8Length(s)
    ensures IsAscii(s) ==> Utf16Length(s) == |s| && Utf8Length(s) == |s|
  {
    if s != [] {
      EncodedLengths(s[1..]);
      assert IsAscii(s) ==> IsAscii(s[1..]);
    }
  }

  /** The `/ping` reply as `Ping.java` computes it: 200 when the content has
      the requested length, 504 otherwise; the content is the body. */
  function PingReplyAsWritten(answer: Answer, length: int): Response
  {
    Response(if Utf16Length(answer.content) == length then StatusOk else GatewayTimeout, answer.content)
  }

  /** The `/mping` report as `Ping.java` computes it: the content's UTF-8
      size, 200 when that is the requested length and 503 otherwise (the
      response status too), and the retries. */
  function MpingReportAsWritten(answer: Answer, length: int): Report
  {
    var size := Utf8Length(answer.content);
    Report(size, if size == length then StatusOk else ServiceUnavailable, answer.retries)
  }

  /** `/ping` as written answers 200 exactly when the content `get` returned
      has the requested length, whether or not a call went through: once `get` has used up its
      retries (no call went through, by `FetchMeaning`), exactly when 22
      characters were requested. */
  lemma PingReplyAsWrittenMeaning(attempts: nat -> Attempt, length: int)
    ensures var r := PingReplyAsWritten(Fetch(attempts), length);
            && (r.status == StatusOk <==> Utf16Length(Fetch(attempts).content) == length)
            && (r.status != StatusOk ==> r.status == GatewayTimeout)
            && r.body == Fetch(attempts).content
            && (Fetch(attempts).retries == MaxTries ==> (r.status == StatusOk <==> length == 22))
  {
    AsWrittenRule(Fetch(attempts), length);
    if Fetch(attempts).retries == MaxTries {
      FetchExhausted(attempts);
      AsWrittenNoConnection(Fetch(attempts), length);
    }
  }

  /** `/mping` as written reports 200 exactly when the UTF-8 size of the
      content has the requested length, whether or not a call went through:
      once `get` has used up its retries, exactly when 22 was requested. */
  lemma MpingReportAsWrittenMeaning(attempts: nat -> Attempt, length: int)
    ensures var r := MpingReportAsWritten(Fetch(attempts), length);
            && (r.status == StatusOk <==> Utf8Length(Fetch(attempts).content) == length)
            && (r.status != StatusOk ==> r.status == ServiceUnavailable)
            && r.length == Utf8Length(Fetch(attempts).content)
            && r.retries == Fetch(attempts).retries
            && (Fetch(attempts).retries == MaxTries ==> (r.status == StatusOk <==> length == 22))
  {
    AsWrittenRule(Fetch(attempts), length);
    if Fetch(attempts).retries == MaxTries {
      FetchExhausted(attempts);
      AsWrittenNoConnection(Fetch(attempts), length);
    }
  }

  /** The as-written status rules compare only the length of the content. */
  lemma AsWrittenRule(answer: Answer, length: int)
    ensures PingReplyAsWritten(answer, length).status == StatusOk <==> Utf16Length(answer.content) == length
    ensures PingReplyAsWritten(answer, length).status in {StatusOk, GatewayTimeout}
    ensures MpingReportAsWritten(answer, length).status == StatusOk <==> Utf8Length(answer.content) == length
    ensures MpingReportAsWritten(answer, length).status in {StatusOk, ServiceUnavailable}
  {
  }

  /** Once `get` has used up its retries, its content takes 22 units in
      either encoding. */
  lemma FetchExhausted(attempts: nat -> Attempt)
    requires Fetch(attempts).retries == MaxTries
    ensures Utf16Length(Fetch(attempts).content) == 22 && Utf8Length(Fetch(attempts).content) == 22
  {
    FetchMeaning(attempts);
    NoConnectionLength();
  }

  /** On a content of 22 units in either encoding, such as `NoConnection`,
      both as-written rules accept exactly the length 22. */
  lemma AsWrittenNoConnection(answer: Answer, length: int)
    requires Utf16Length(answer.content) == 22 && Utf8Length(answer.content) == 22
    ensures PingReplyAsWritten(answer, length).status == StatusOk <==> length == 22
    ensures MpingReportAsWritten(answer, length).status == StatusOk <==> length == 22
  {
    AsWrittenRule(answer, length);
  }

  /** With every call failing, `get` gives up with `NoConnection`. */
  lemma FetchUnreachable(attempts: nat -> Attempt)
    requires forall i :: 0 <= i < MaxTries ==> attempts(i).Raised?
    ensures Fetch(attempts) == Answer(NoConnection, MaxTries)
  {
    FirstNone(attempts, MaxTries, Delivered);
  }

  /** The answer of an unreachable pong service still gets status 200 from
      both handlers when the requested length is 22, the length of
      `NoConnection`. */
  lemma NoConnectionAccepted(answer: Answer)
    requires answer == Answer(NoConnection, MaxTries)
    ensures PingReplyAsWritten(answer, 22).status == StatusOk
    ensures MpingReportAsWritten(answer, 22) == Report(22, StatusOk, MaxTries)
  {
    NoConnectionLength();
  }

  /** The corrected replies refuse that answer, whatever length was asked. */
  lemma NoConnectionRefused(answer: Answer, length: int)
    requires answer == Answer(NoConnection, MaxTries)
    ensures PingReply(answer, length).status == GatewayTimeout
    ensures MpingReport(answer, length).status == ServiceUnavailable
  {
  }

  /** `NoConnection` takes 22 units in either encoding. */
  lemma NoConnectionLength()
    ensures Utf16Length(NoConnection) == 22 && Utf8Length(NoConnection) == 22
  {
    NoConnectionAscii();
    EncodedLengths(NoConnection);
  }

  lemma NoConnectionAscii()
    ensures IsAscii(NoConnection) && |NoConnection| == 22
  {
    forall i | 0 <= i < |NoConnection|
      ensures NoConnection[i] as int < 0x80
    {
    }
  }

  /** The `/ping` reply with exhaustion reported as a failure: 200 only for
      content that came from the pong service with the requested length. */
  function PingReply(answer: Answer, length: int): Response
  {
    var status := if answer.retries < MaxTries && Utf16Length(answer.content) == length then StatusOk else GatewayTimeout;
    Response(status, answer.content)
  }

  /** The `/mping` report with exhaustion reported as a failure. */
  function MpingReport(answer: Answer, length: int): Report
  {
    var size := Utf8Length(answer.content);
    var code := if answer.retries < MaxTries && size == length then StatusOk else ServiceUnavailable;
    Report(size, code, answer.retries)
  }

  /** `/ping` answers 200 exactly when some call went through and its content
      has the requested length, 504 otherwise, always with the content. */
  lemma PingReplyMeaning(attempts: nat -> Attempt, length: int)
    ensures var r := PingReply(Fetch(attempts), length);
            && (r.status == StatusOk <==>
                 (exists i :: 0 <= i < MaxTries && Delivered(attempts(i))) && Utf16Length(Fetch(attempts).content) == length)
            && (r.status != StatusOk ==> r.status == GatewayTimeout)
            && r.body == Fetch(attempts).content
  {
    FetchMeaning(attempts);
  }

  /** `/mping` reports 200 exactly when some call went through and its content
      has the requested UTF-8 size, 503 otherwise. */
  lemma MpingReportMeaning(attempts: nat -> Attempt, length: int)
    ensures var r := MpingReport(Fetch(attempts), length);
            && (r.status == StatusOk <==>
                 (exists i :: 0 <= i < MaxTries && Delivered(attempts(i))) && Utf8Length(Fetch(attempts).content) == length)
            && (r.status != StatusOk ==> r.status == ServiceUnavailable)
            && r.retries == Fetch(attempts).retries
  {
    FetchMeaning(attempts);
  }

  /** When a call went through, the corrected replies are those of
      `Ping.java`. */
  lemma RepliesAgree(answer: Answer, length: int)
    requires answer.retries < MaxTries
    ensures PingReply(answer, length) == PingReplyAsWritten(answer, length)
    ensures MpingReport(answer, length) == MpingReportAsWritten(answer, length)
  {
  }

  /** A Java pong service answering the first call makes `/ping/n` succeed
      with the `n` characters of its body, for `n` from 4 on. */
  lemma PingJavaPong(n: int, attempts: nat -> Attempt)
    requires 4 <= n
    requires attempts(0) == Answered(StatusOk, PongBody(n))
    ensures Fetch(attempts) == Answer(PongBody(n), 0)
    ensures PingReplyAsWritten(Fetch(attempts), n) == Response(StatusOk, PongBody(n))
    ensures MpingReportAsWritten(Fetch(attempts), n) == Report(n, StatusOk, 0)
    ensures PingReply(Fetch(attempts), n) == Response(StatusOk, PongBody(n))
    ensures MpingReport(Fetch(attempts), n) == Report(n, StatusOk, 0)
  {
    PongBodyLength(n);
    PongAscii(n - 3);
    FirstAt(attempts, MaxTries, Delivered, 0);
    EncodedLengths(PongBody(n));
  }

  /** A pong body is ASCII and has no line terminator. */
  lemma PongAscii(k: nat)
    ensures IsAscii(Pong(k)) && '\n' !in Pong(k) && '\r' !in Pong(k)
  {
    PongShape(k);
    var s := Pong(k);
    forall i | 0 <= i < |s|
      ensures s[i] in "pong"
    {
      if 1 <= i < |s| - 2 {
        assert s[i] == 'o';
      }
    }
  }

  /** The `/ping` handler: the third piece of the path is the length (a
      missing piece or a bad number raises, and no response is sent); the
      pong service is called through `get`, and the reply is judged as
      `Ping.java` does, by the length alone. */
  method PingHandler(path: string, calls: int -> (nat -> Attempt)) returns (r: Option<Response>)
    ensures r.None? <==> |Split(path, '/')| < 3 || ParseInt(Split(path, '/')[2]).None?
    ensures r.Some? ==>
              var length := ParseInt(Split(path, '/')[2]).value;
              r.value == PingReplyAsWritten(Fetch(calls(length)), length)
  {
    var request := Split(path, '/');
    if |request| < 3 {
      return None;
    }
    match ParseInt(request[2])
    case None =>
      r := None;
    case Some(length) =>
      var answer := Get(calls(length));
      r := Some(PingReplyAsWritten(answer, length));
  }

  /** The `/mping` handler: as `/ping`, reporting size, code and retries. */
  method MpingHandler(path: string, calls: int -> (nat -> Attempt)) returns (r: Option<Report>)
    ensures r.None? <==> |Split(path, '/')| < 3 || ParseInt(Split(path, '/')[2]).None?
    ensures r.Some? ==>
              var length := ParseInt(Split(path, '/')[2]).value;
              r.value == MpingReportAsWritten(Fetch(calls(length)), length)
  {
    var request := Split(path, '/');
    if |request| < 3 {
      return None;
    }
    match ParseInt(request[2])
    case None =>
      r := None;
    case Some(length) =>
      var answer := Get(calls(length));
      r := Some(MpingReportAsWritten(answer, length));
  }
}
