/** How the bodies of the three pong services compare for the same requested
    length. */
module PongAgreement {
  import opened PingpongHttp
  import RubyPong
  import JavaPong
  import GoPong

  /** The Ruby and Java pong services send the same body for every length
      but 3, where Ruby sends the three characters `"png"` and Java `"pong"`. */
  lemma RubyJavaAgree(n: int)
    ensures RubyPong.PongBody(n) == JavaPong.PongBody(n) <==> n != 3
    ensures RubyPong.PongBody(3) == "png" && JavaPong.PongBody(3) == "pong"
  {
    PongShape(0);
    PongShape(1);
    assert Os(1) == "o";
    assert RubyPong.PongBody(3) == Pong(0);
    assert JavaPong.PongBody(3) == Pong(1);
  }

  /** The Go and Java pong services send the same body for every length. */
  lemma GoJavaAgree(n: int)
    ensures GoPong.GoBody(n) == JavaPong.PongBody(n)
  {
    GoPong.GoBodyLength(n);
  }
}
