/** The Java pong service (`Pong.java`) and what the Java ping service shares
    with it: splitting the request path with `String.split("/")` and reading
    the length with `Integer.parseInt`. */
module JavaPong {
  import opened Wrappers
  import opened PingpongHttp
  import opened Decimal

  /** The pieces of `s` between occurrences of `sep`: one more piece than
      there are separators, trailing empty pieces included. */
  function Fields(s: string, sep: char): (r: seq<string>)
    ensures |r| >= 1
    ensures forall k :: 0 <= k < |r| ==> sep !in r[k]
    decreases |s|
  {
    if s == [] then [""]
    else
      var rest := Fields(s[1..], sep);
      if s[0] == sep then [""] + rest else [[s[0]] + rest[0]] + rest[1..]
  }

  /** The pieces glued back together with `sep` between them. */
  function Join(pieces: seq<string>, sep: char): string
    requires pieces != []
  {
    if |pieces| == 1 then pieces[0] else pieces[0] + [sep] + Join(pieces[1..], sep)
  }

  /** Splitting loses nothing: joining the pieces gives the string back. */
  lemma {:induction false} JoinFields(s: string, sep: char)
    ensures Join(Fields(s, sep), sep) == s
    decreases |s|
  {
    if s != [] {
      var rest := Fields(s[1..], sep);
      JoinFields(s[1..], sep);
      if s[0] != sep && |rest| > 1 {
        assert Fields(s, sep)[1..] == rest[1..];
      }
    }
  }

  /** `fs` without its trailing empty strings. */
  function DropTrailingEmpty(fs: seq<string>): (r: seq<string>)
    ensures |r| <= |fs| && r == fs[..|r|]
    ensures r != [] ==> r[|r| - 1] != ""
    ensures forall k :: |r| <= k < |fs| ==> fs[k] == ""
  {
    if fs != [] && fs[|fs| - 1] == "" then DropTrailingEmpty(fs[..|fs| - 1]) else fs
  }

  /** `s.split(sep)` for a one-character separator: the string itself when
      the separator does not occur, otherwise its pieces without the
      trailing empty ones (so a leading separator gives a leading `""`). */
  function Split(s: string, sep: char): seq<string>
  {
    if sep !in s then [s] else DropTrailingEmpty(Fields(s, sep))
  }

  /** A request path `/<name>/<rest>` with one-segment name and rest splits
      into `""`, the name and the rest. */
  lemma SplitRoute(name: string, rest: string)
    requires '/' !in name && '/' !in rest && rest != []
    ensures Split("/" + name + "/" + rest, '/') == ["", name, rest]
  {
    var s := "/" + name + "/" + rest;
    assert s[0] == '/';
    FieldsPlain(rest, '/');
    FieldsAfterPlain(name, "/" + rest, '/');
    assert ("/" + rest)[1..] == rest;
    assert Fields("/" + rest, '/') == [""] + [rest];
    assert name + "/" + rest == name + ("/" + rest);
    assert name + "" == name;
    assert Fields(name + "/" + rest, '/') == [name, rest];
    assert s[1..] == name + "/" + rest;
  }

  /** A string without the separator is a single piece. */
  lemma {:induction false} FieldsPlain(s: string, sep: char)
    requires sep !in s
    ensures Fields(s, sep) == [s]
    decreases |s|
  {
    if s != [] {
      FieldsPlain(s[1..], sep);
      assert [s[0]] + s[1..] == s;
    }
  }

  /** A separator-free prefix extends the first piece of what follows it. */
  lemma {:induction false} FieldsAfterPlain(a: string, b: string, sep: char)
    requires sep !in a
    ensures Fields(a + b, sep) == [a + Fields(b, sep)[0]] + Fields(b, sep)[1..]
    decreases |a|
  {
    if a != [] {
      assert (a + b)[1..] == a[1..] + b;
      assert (a + b)[0] == a[0] && a[0] != sep;
      FieldsAfterPlain(a[1..], b, sep);
      var rest := Fields(a[1..] + b, sep);
      assert rest[0] == a[1..] + Fields(b, sep)[0];
      assert rest[1..] == Fields(b, sep)[1..];
      assert Fields(a + b, sep) == [[a[0]] + rest[0]] + rest[1..];
      assert [a[0]] + (a[1..] + Fields(b, sep)[0]) == a + Fields(b, sep)[0];
      assert [a[0]] + rest[0] == a + Fields(b, sep)[0];
    } else {
      assert a + b == b && a + Fields(b, sep)[0] == Fields(b, sep)[0];
    }
  }

  const MinInt: int := -0x8000_0000
  const MaxInt: int := 0x7FFF_FFFF

  /** `Integer.parseInt(s)`: an optional `-` or `+`, then at least one digit,
      with a value in the range of a Java `int`; anything else raises a
      `NumberFormatException` (here `None`). */
  function ParseInt(s: string): (r: Option<int>)
    ensures r.Some? ==> MinInt <= r.value <= MaxInt
    ensures r.Some? ==> s != [] && (s[0] == '-' || s[0] == '+' || IsDigit(s[0]))
  {
    if s == [] then None
    else
      var signed := s[0] == '-' || s[0] == '+';
      var digits := if signed then s[1..] else s;
      if digits == [] || !AllDigits(digits) then None
      else
        var m: int := Value(digits);
        var v := if s[0] == '-' then -m else m;
        if MinInt <= v <= MaxInt then Some(v) else None
  }

  /** `parseInt` reads back the decimal digits of every `int`, with a minus
      sign for the negative ones. */
  lemma ParseIntDigits(n: int)
    requires MinInt <= n <= MaxInt
    ensures n >= 0 ==> ParseInt(Digits(n)) == Some(n)
    ensures n < 0 ==> ParseInt("-" + Digits(-n)) == Some(n)
  {
    if n >= 0 {
      ValueOfDigits(n);
    } else {
      ValueOfDigits(-n);
      assert ("-" + Digits(-n))[1..] == Digits(-n);
    }
  }

  /** The body `"p" + "o" * (length < 4 ? 1 : length - 3) + "ng"`. */
  function PongBody(length: int): string
  {
    Pong(if length < 4 then 1 else length - 3)
  }

  /** The pong body has the requested length from 4 on, and is `"pong"`
      below; it always has the pong shape. */
  lemma PongBodyLength(length: int)
    ensures IsPong(PongBody(length))
    ensures length >= 4 ==> |PongBody(length)| == length
    ensures length < 4 ==> PongBody(length) == "pong"
  {
    PongShape(if length < 4 then 1 else length - 3);
    if length < 4 {
      assert Os(1) == "o";
    }
  }

  /** The `/pong` handler: the third piece of the path is the length; a
      missing piece or a bad number raises inside the handler and no
      response is sent (`None`); otherwise status 200 and the pong body. */
  function PongHandler(path: string): Option<Response>
  {
    var request := Split(path, '/');
    if |request| < 3 then None
    else
      match ParseInt(request[2])
      case None => None
      case Some(length) => Some(Response(StatusOk, PongBody(length)))
  }

  /** `/pong/<n>` for a non-negative `int` `n` is answered with status 200
      and a pong body of `n` characters when `n` is at least 4. */
  lemma PongHandlerAnswers(n: int)
    requires 0 <= n <= MaxInt
    ensures PongHandler("/pong/" + Digits(n)) == Some(Response(StatusOk, PongBody(n)))
    ensures n >= 4 ==> |PongHandler("/pong/" + Digits(n)).value.body| == n
  {
    DigitsPlain(n);
    assert "/pong/" + Digits(n) == "/" + "pong" + "/" + Digits(n);
    SplitRoute("pong", Digits(n));
    ParseIntDigits(n);
    PongBodyLength(n);
  }

  /** `/pong/-<m>` for a negative `int` is answered too, with status 200 and
      the body `"pong"`. */
  lemma PongHandlerNegative(n: int)
    requires MinInt <= n < 0
    ensures PongHandler("/pong/-" + Digits(-n)) == Some(Response(StatusOk, "pong"))
  {
    DigitsPlain(-n);
    assert "/pong/-" + Digits(-n) == "/" + "pong" + "/" + ("-" + Digits(-n));
    SplitRoute("pong", "-" + Digits(-n));
    ParseIntDigits(n);
    PongBodyLength(n);
  }

  /** A digit string holds no `/`. */
  lemma DigitsPlain(n: nat)
    ensures '/' !in Digits(n)
  {
    var s := Digits(n);
    forall i | 0 <= i < |s|
      ensures s[i] != '/'
    {
      assert IsDigit(s[i]);
    }
  }
}
