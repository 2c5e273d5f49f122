/** Texts as characters and as bytes: what white space and control characters are in the UTF-8 form. */
module Utf8Text {
  import opened Bytes
  import opened Unicode

  /** The UTF-8 form of a character (RFC 3629, section 3). */
  ghost function Utf8(c: char): (bs: seq<byte>)
    ensures 1 <= |bs| <= 4
  {
    var n := c as int;
    if n < 0x80 then [n]
    else if n < 0x800 then [0xc0 + n / 0x40, 0x80 + n % 0x40]
    else if n < 0x1_0000 then [0xe0 + n / 0x1000, 0x80 + n / 0x40 % 0x40, 0x80 + n % 0x40]
    else [0xf0 + n / 0x4_0000, 0x80 + n / 0x1000 % 0x40, 0x80 + n / 0x40 % 0x40, 0x80 + n % 0x40]
  }

  ghost function Encoded(text: string): seq<byte> {
    if text == [] then [] else Utf8(text[0]) + Encoded(text[1..])
  }

  ghost predicate Blank(text: string) {
    forall i :: 0 <= i < |text| ==> IsWhitespace(text[i])
  }

  lemma {:induction false} EncodedLast(text: string)
    requires text != []
    ensures Encoded(text) == Encoded(text[..|text| - 1]) + Utf8(text[|text| - 1])
  {
    hide Utf8;
    if |text| > 1 {
      EncodedLast(text[1..]);
      assert text[1..][..|text| - 2] == text[..|text| - 1][1..];
      assert Encoded(text) == Utf8(text[0]) + (Encoded(text[1..][..|text| - 2]) + Utf8(text[|text| - 1]));
    } else {
      assert text[..0] == [] && text[1..] == [];
    }
  }

  /** White space is recognised at the start and at the end of a text by its UTF-8 form. */
  lemma SpaceFound(c: char, rest: seq<byte>)
    requires IsWhitespace(c)
    ensures SpaceAtStart(Utf8(c) + rest) == |Utf8(c)|
    ensures SpaceAtEnd(rest + Utf8(c)) == |Utf8(c)|
  {
    var u := Utf8(c);
    assert |u| <= 3;
    var front, back := u + rest, rest + u;
    assert forall i :: 0 <= i < |u| ==> front[i] == u[i] && back[|rest| + i] == u[i];
  }

  /** What is recognised as white space is the UTF-8 form of a white-space character. */
  lemma SpaceIsCharacter(u: seq<byte>) returns (c: char)
    requires || (|u| == 1 && Space1(u[0]))
             || (|u| == 2 && Space2(u[0], u[1]))
             || (|u| == 3 && Space3(u[0], u[1], u[2]))
    ensures IsWhitespace(c) && Utf8(c) == u
  {
    c := if |u| == 1 then u[0] as char
         else if |u| == 2 then u[1] as char
         else if u[0] == 0xe1 then 0x1680 as char
         else if u[0] == 0xe3 then 0x3000 as char
         else if u[1] == 0x81 then 0x205f as char
         else var third: int := u[2]; (0x1f80 + third) as char;
  }

  lemma {:induction false} StartTrimmed(left: string, rest: seq<byte>)
    requires Blank(left) && SpaceAtStart(rest) == 0
    ensures TrimStart(Encoded(left) + rest) == rest
  {
    hide SpaceAtStart, IsWhitespace, Utf8;
    if left == [] {
      assert Encoded(left) + rest == rest;
    } else {
      var u, more := Utf8(left[0]), Encoded(left[1..]) + rest;
      assert Encoded(left) + rest == u + more;
      SpaceFound(left[0], more);
      assert (u + more)[|u|..] == more;
      StartTrimmed(left[1..], rest);
    }
  }

  lemma {:induction false} EndTrimmed(front: seq<byte>, right: string)
    requires Blank(right) && SpaceAtEnd(front) == 0
    ensures TrimEnd(front + Encoded(right)) == front
    decreases |right|
  {
    hide SpaceAtEnd, IsWhitespace, Utf8;
    if right == [] {
      assert front + Encoded(right) == front;
    } else {
      EncodedLast(right);
      var n := |right| - 1;
      var u, more := Utf8(right[n]), front + Encoded(right[..n]);
      assert front + Encoded(right) == more + u;
      SpaceFound(right[n], more);
      assert (more + u)[..|more|] == more;
      EndTrimmed(front, right[..n]);
    }
  }

  lemma SpaceStarts(t: seq<byte>) returns (c: char)
    requires SpaceAtStart(t) > 0
    ensures IsWhitespace(c) && t == Utf8(c) + t[SpaceAtStart(t)..]
  {
    var n := SpaceAtStart(t);
    var u := t[..n];
    c := SpaceIsCharacter(u);
    assert t == u + t[n..];
  }

  lemma SpaceEnds(t: seq<byte>) returns (c: char)
    requires SpaceAtEnd(t) > 0
    ensures IsWhitespace(c) && t == t[..|t| - SpaceAtEnd(t)] + Utf8(c)
  {
    var k := |t| - SpaceAtEnd(t);
    var u := t[k..];
    assert forall i :: 0 <= i < |u| ==> u[i] == t[k + i];
    c := SpaceIsCharacter(u);
    assert t == t[..k] + u;
  }

  /** What the start loses is white space. */
  lemma {:induction false} StartLost(t: seq<byte>) returns (left: string)
    ensures Blank(left) && t == Encoded(left) + TrimStart(t)
    decreases |t|
  {
    hide SpaceAtStart, IsWhitespace, Utf8;
    if SpaceAtStart(t) == 0 {
      left := [];
    } else {
      var c := SpaceStarts(t);
      var rest := t[SpaceAtStart(t)..];
      var more := StartLost(rest);
      left := [c] + more;
      assert left[1..] == more;
      assert Utf8(c) + (Encoded(more) + TrimStart(rest)) == Utf8(c) + Encoded(more) + TrimStart(rest);
    }
  }

  lemma {:induction false} EndLost(t: seq<byte>) returns (right: string)
    ensures Blank(right) && t == TrimEnd(t) + Encoded(right)
    decreases |t|
  {
    hide SpaceAtEnd, IsWhitespace, Utf8;
    if SpaceAtEnd(t) == 0 {
      right := [];
    } else {
      var c := SpaceEnds(t);
      var rest := t[..|t| - SpaceAtEnd(t)];
      var more := EndLost(rest);
      right := more + [c];
      EncodedLast(right);
      assert right[..|more|] == more;
      assert TrimEnd(rest) + Encoded(more) + Utf8(c) == TrimEnd(rest) + (Encoded(more) + Utf8(c));
    }
  }

  /** Any other character is not taken for white space. */
  lemma NoSpaceFound(c: char, rest: seq<byte>)
    requires !IsWhitespace(c)
    ensures SpaceAtStart(Utf8(c) + rest) == 0
  {
    var u := Utf8(c);
    var front := u + rest;
    assert forall i :: 0 <= i < |u| ==> front[i] == u[i];
  }

  lemma {:induction false} TrimmedToNothing(text: string)
    ensures TrimStart(Encoded(text)) == [] <==> Blank(text)
  {
    hide SpaceAtStart, IsWhitespace, Utf8;
    if Blank(text) {
      assert Encoded(text) + [] == Encoded(text);
      NothingToTrim();
      StartTrimmed(text, []);
    } else if IsWhitespace(text[0]) {
      var u, more := Utf8(text[0]), Encoded(text[1..]);
      SpaceFound(text[0], more);
      assert (u + more)[|u|..] == more;
      TrimmedToNothing(text[1..]);
      assert forall i :: 0 <= i < |text| - 1 ==> text[1..][i] == text[i + 1];
    } else {
      NoSpaceFound(text[0], Encoded(text[1..]));
    }
  }

  lemma NothingToTrim()
    ensures SpaceAtStart([]) == 0
  {
  }

  /** Control characters are those below the space, the delete character and 32 more after it. */
  predicate IsControl(c: char) {
    var n := c as int;
    n < 0x20 || 0x7f <= n <= 0x9f
  }

  lemma ControlIn(c: char, rest: seq<byte>)
    ensures (exists i :: 0 <= i < |Utf8(c)| && ControlAt(Utf8(c) + rest, i)) <==> IsControl(c)
  {
    var u, n := Utf8(c), c as int;
    var t := u + rest;
    assert forall i :: 0 <= i < |u| ==> t[i] == u[i];
    assert forall i :: 0 < i < |u| ==> 0x80 <= t[i] < 0xc0;
    assert ControlAt(t, 0) <==> IsControl(c);
  }

  lemma {:induction false} ControlsMean(text: string)
    ensures (exists i :: 0 <= i < |Encoded(text)| && ControlAt(Encoded(text), i))
       <==> exists i :: 0 <= i < |text| && IsControl(text[i])
  {
    hide Utf8, IsControl;
    if text != [] {
      var u, rest := Utf8(text[0]), Encoded(text[1..]);
      var t := u + rest;
      assert Encoded(text) == t;
      ControlIn(text[0], rest);
      ControlsMean(text[1..]);
      assert forall i :: 0 <= i < |rest| ==> rest[i] == t[|u| + i];
      assert forall i :: 0 <= i < |rest| ==> (ControlAt(rest, i) <==> ControlAt(t, |u| + i));
      if i :| 0 <= i < |t| && ControlAt(t, i) {
        assert i >= |u| ==> ControlAt(rest, i - |u|);
      }
      if i :| 0 <= i < |rest| && ControlAt(rest, i) {
        assert ControlAt(t, |u| + i);
      }
      assert forall i :: 0 <= i < |text| - 1 ==> text[1..][i] == text[i + 1];
      if i :| 0 <= i < |text| && IsControl(text[i]) {
        assert i > 0 ==> IsControl(text[1..][i - 1]);
      }
    }
  }
}
