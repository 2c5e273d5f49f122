/** White space and control characters, as characters and in the UTF-8 form of a text. */
module Unicode {
  import opened Bytes

  predicate IsWhitespace(c: char) {
    var n := c as int;
    || 0x09 <= n <= 0x0d || n in {0x20, 0x85, 0xa0, 0x1680} || 0x2000 <= n <= 0x200a
    || n in {0x2028, 0x2029, 0x202f, 0x205f, 0x3000}
  }

  /** A character that is white space, in one, two or three bytes. */
  predicate Space1(a: byte) { a == 0x20 || 0x09 <= a <= 0x0d }
  predicate Space2(a: byte, b: byte) { a == 0xc2 && (b == 0x85 || b == 0xa0) }
  predicate Space3(a: byte, b: byte, c: byte) {
    || (a == 0xe1 && b == 0x9a && c == 0x80)
    || (a == 0xe2 && b == 0x80 && (0x80 <= c <= 0x8a || c == 0xa8 || c == 0xa9 || c == 0xaf))
    || (a == 0xe2 && b == 0x81 && c == 0x9f)
    || (a == 0xe3 && b == 0x80 && c == 0x80)
  }

  /** How many bytes the white space takes that a text starts with. */
  function SpaceAtStart(t: seq<byte>): (n: nat)
    ensures n <= |t|
  {
    if |t| >= 1 && Space1(t[0]) then 1
    else if |t| >= 2 && Space2(t[0], t[1]) then 2
    else if |t| >= 3 && Space3(t[0], t[1], t[2]) then 3
    else 0
  }

  function SpaceAtEnd(t: seq<byte>): (n: nat)
    ensures n <= |t|
  {
    var k := |t|;
    if k >= 1 && Space1(t[k - 1]) then 1
    else if k >= 2 && Space2(t[k - 2], t[k - 1]) then 2
    else if k >= 3 && Space3(t[k - 3], t[k - 2], t[k - 1]) then 3
    else 0
  }

  function TrimStart(t: seq<byte>): seq<byte> {
    if SpaceAtStart(t) > 0 then TrimStart(t[SpaceAtStart(t)..]) else t
  }

  function TrimEnd(t: seq<byte>): seq<byte> {
    if SpaceAtEnd(t) > 0 then TrimEnd(t[..|t| - SpaceAtEnd(t)]) else t
  }

  predicate ControlAt(t: seq<byte>, i: nat)
    requires i < |t|
  {
    t[i] < 0x20 || t[i] == 0x7f || (t[i] == 0xc2 && i + 1 < |t| && 0x80 <= t[i + 1] <= 0x9f)
  }
}
