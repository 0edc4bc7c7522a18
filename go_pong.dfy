/** The Go pong service (`Pong.go`): the router passes on only a non-empty
    digit string (`/pong/{length:[0-9]+}`), `strconv.Atoi` reads it, and a
    loop writes the body. */
module GoPong {
  import opened Wrappers
  import opened PingpongHttp
  import opened Decimal

  /** The largest value of Go's 64-bit `int`. */
  const MaxInt: int := 0x7FFF_FFFF_FFFF_FFFF

  /** `strconv.Atoi` on a digit string: its value, or an out-of-range error
      when that exceeds `MaxInt`. */
  function Atoi(s: string): Option<int>
    requires AllDigits(s)
  {
    if Value(s) <= MaxInt then Some(Value(s)) else None
  }

  /** `Atoi` reads back the decimal digits of every non-negative `int`, and
      fails on every digit string beyond the range. */
  lemma AtoiDigits(n: nat)
    ensures n <= MaxInt ==> Atoi(Digits(n)) == Some(n)
    ensures n > MaxInt ==> Atoi(Digits(n)) == None
  {
    ValueOfDigits(n);
  }

  /** The body `pongHandler` writes for the length `n`: `"po"`, then one `o`
      for each of `n - 4` loop rounds (none when that is not positive), then
      `"ng"`. */
  function GoBody(n: int): string
  {
    "po" + Os(if n - 4 > 0 then n - 4 else 0) + "ng"
  }

  /** The body has the requested length from 4 on, is `"pong"` below, and
      always has the pong shape. */
  lemma GoBodyLength(n: int)
    ensures GoBody(n) == Pong(if n < 4 then 1 else n - 3)
    ensures IsPong(GoBody(n))
    ensures n >= 4 ==> |GoBody(n)| == n
    ensures n < 4 ==> GoBody(n) == "pong"
  {
    var k := if n - 4 > 0 then n - 4 else 0;
    assert "po" + Os(k) == "p" + Os(k + 1) by {
      assert Os(k + 1) == Os(k) + "o";
      OsFront(k);
    }
    assert GoBody(n) == Pong(k + 1);
    PongShape(k + 1);
  }

  /** `'o' * (k + 1)` also starts with its `o`. */
  lemma {:induction false} OsFront(k: nat)
    ensures Os(k + 1) == "o" + Os(k)
  {
    if k > 0 {
      OsFront(k - 1);
      assert Os(k + 1) == Os(k) + "o";
      assert Os(k) == Os(k - 1) + "o";
    }
  }

  /** `pongHandler` for the digit string the route captured: `None` where
      `Atoi` fails and the handler panics (no response), otherwise the body
      built by the loop, sent with the default status 200. */
  method PongHandler(length: string) returns (body: Option<string>)
    requires length != [] && AllDigits(length)
    ensures Atoi(length).None? ==> body == None
    ensures Atoi(length).Some? ==> body == Some(GoBody(Atoi(length).value))
  {
    match Atoi(length)
    case None =>
      body := None;
    case Some(n) =>
      var i := n - 4;
      var result := "po";
      var j := 0;
      while j < i
        invariant 0 <= j && (i > 0 ==> j <= i) && (i <= 0 ==> j == 0)
        invariant result == "po" + Os(j)
      {
        assert Os(j + 1) == Os(j) + "o";
        result := result + "o";
        j := j + 1;
      }
      result := result + "ng";
      body := Some(result);
  }
}
