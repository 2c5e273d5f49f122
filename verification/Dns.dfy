/**
The DNS messages of alternative routing: the TXT query that is sent and the
reader of its answer, after RFC 1035 (sections 3.1, 3.3.14, 4.1.1 to 4.1.4).
*/
module Dns {
  import opened Bytes
  import opened Unicode
  import opened Wrappers

  const QUERY_ID := 0x5056
  const TYPE_TXT := 16
  const CLASS_IN := 1
  const DOT: byte := 46
  const DASH: byte := 45

  // ----- host names -----

  predicate HostByte(b: byte) { 48 <= b <= 57 || 65 <= b <= 90 || 97 <= b <= 122 || b == DASH }

  predicate ValidLabel(l: seq<byte>) {
    0 < |l| <= 63 && l[0] != DASH && l[|l| - 1] != DASH && forall b :: b in l ==> HostByte(b)
  }

  /** The labels between the dots; there is always at least one. */
  function Split(host: seq<byte>): (labels: seq<seq<byte>>)
    ensures labels != []
  {
    if host == [] then [[]]
    else
      var init, last := Split(host[..|host| - 1]), host[|host| - 1];
      if last == DOT then init + [[]] else init[|init| - 1 := init[|init| - 1] + [last]]
  }

  predicate ValidHostname(host: seq<byte>) {
    0 < |host| <= 253 && forall l :: l in Split(host) ==> ValidLabel(l)
  }

  /** Each label after its length, which is cast to a byte. */
  function LabelsWire(labels: seq<seq<byte>>): seq<byte> {
    if labels == [] then []
    else LabelsWire(labels[..|labels| - 1]) + [|labels[|labels| - 1]| % 256] + labels[|labels| - 1]
  }

  function TotalLength(labels: seq<seq<byte>>): nat {
    if labels == [] then 0 else TotalLength(labels[..|labels| - 1]) + |labels[|labels| - 1]|
  }

  lemma {:induction false} WireLength(labels: seq<seq<byte>>)
    ensures |LabelsWire(labels)| == TotalLength(labels) + |labels|
  {
    if labels != [] {
      WireLength(labels[..|labels| - 1]);
    }
  }

  /** Every byte of a host is in a label or is a dot between two labels. */
  lemma {:induction false} SplitLength(host: seq<byte>)
    ensures TotalLength(Split(host)) + |Split(host)| == |host| + 1
  {
    if host == [] {
      var one: seq<seq<byte>> := [[]];
      assert one[..0] == [];
    } else {
      var init, last := Split(host[..|host| - 1]), host[|host| - 1];
      SplitLength(host[..|host| - 1]);
      if last == DOT {
        assert (init + [[]])[..|init|] == init;
      } else {
        var grown := init[|init| - 1 := init[|init| - 1] + [last]];
        assert grown[..|init| - 1] == init[..|init| - 1];
      }
    }
  }

  function U16(n: nat): (bs: seq<byte>)
    requires n < 0x1_0000
    ensures |bs| == 2
  {
    [n / 256, n % 256]
  }

  function U32(n: nat): (bs: seq<byte>)
    requires n < 0x1_0000_0000
    ensures |bs| == 4
  {
    U16(n / 0x1_0000) + U16(n % 0x1_0000)
  }

  /** The identifier, the flags, and how many records of each of the four sections follow. */
  function Header(id: nat, flags: nat, questions: nat, answers: nat, authorities: nat, additionals: nat): (bs: seq<byte>)
    requires id < 0x1_0000 && flags < 0x1_0000 && questions < 0x1_0000 && answers < 0x1_0000
    requires authorities < 0x1_0000 && additionals < 0x1_0000
    ensures |bs| == 12
  {
    U16(id) + U16(flags) + U16(questions) + U16(answers) + U16(authorities) + U16(additionals)
  }

  /** The query for a valid host: header, name, type TXT, class IN. */
  method BuildTxtQuery(host: seq<byte>) returns (query: Option<seq<byte>>)
    ensures query.Some? <==> ValidHostname(host)
    ensures query.Some? ==>
              && |query.value| == |host| + 18
              && query.value == Header(QUERY_ID, 0x0100, 1, 0, 0, 0) + LabelsWire(Split(host)) + [0] + U16(TYPE_TXT) + U16(CLASS_IN)
  {
    if !ValidHostname(host) {
      return None;
    }
    var labels := Split(host);
    var out := Header(QUERY_ID, 0x0100, 1, 0, 0, 0);
    for i := 0 to |labels|
      invariant out == Header(QUERY_ID, 0x0100, 1, 0, 0, 0) + LabelsWire(labels[..i])
    {
      assert labels[..i + 1][..i] == labels[..i];
      out := out + [|labels[i]| % 256] + labels[i];
    }
    assert labels[..|labels|] == labels;
    WireLength(labels);
    SplitLength(host);
    query := Some(out + [0] + U16(TYPE_TXT) + U16(CLASS_IN));
  }

  // ----- reading -----

  function ReadU16(m: seq<byte>, offset: nat): Option<nat> {
    if offset + 2 > |m| then None
    else
      var high: int, low: int := m[offset], m[offset + 1];
      Some(256 * high + low)
  }

  function ReadU32(m: seq<byte>, offset: nat): Option<nat> {
    match (ReadU16(m, offset), ReadU16(m, offset + 2))
    case (Some(high), Some(low)) => Some(0x1_0000 * high + low)
    case _ => None
  }

  /** The offset after a name: its labels, then a zero byte or a two-byte pointer. */
  function SkipName(m: seq<byte>, offset: nat): (r: Option<nat>)
    ensures r.Some? ==> offset < r.value <= |m|
    decreases |m| - offset
  {
    if offset >= |m| then None
    else
      var length := m[offset];
      if length == 0 then Some(offset + 1)
      else if length >= 0xc0 then if offset + 1 < |m| then Some(offset + 2) else None
      else if length > 63 then None
      else if offset + 1 + length > |m| then None
      else SkipName(m, offset + 1 + length)
  }

  method SkipDnsName(m: seq<byte>, start: nat) returns (r: Option<nat>)
    ensures r == SkipName(m, start)
  {
    var offset := start;
    while offset < |m|
      invariant SkipName(m, start) == SkipName(m, offset)
    {
      var length := m[offset];
      offset := offset + 1;
      if length == 0 {
        return Some(offset);
      }
      if length >= 0xc0 {
        return if offset < |m| then Some(offset + 1) else None;
      }
      if length > 63 || offset + length > |m| {
        return None;
      }
      offset := offset + length;
    }
    r := None;
  }

  function SkipQuestions(m: seq<byte>, offset: nat, n: nat): Option<nat>
    decreases n
  {
    if n == 0 then Some(offset)
    else
      match SkipName(m, offset)
      case None => None
      case Some(after) => if after + 4 <= |m| then SkipQuestions(m, after + 4, n - 1) else None
  }

  function Prepend<T>(front: seq<T>, rest: Option<seq<T>>): Option<seq<T>> {
    match rest
    case Some(s) => Some(front + s)
    case None => None
  }

  lemma PrependTwice<T>(a: seq<T>, b: seq<T>, rest: Option<seq<T>>)
    ensures Prepend(a, Prepend(b, rest)) == Prepend(a + b, rest) && Prepend([], rest) == rest
  {
    if rest.Some? {
      assert a + (b + rest.value) == a + b + rest.value && [] + rest.value == rest.value;
    }
  }

  /** The text of TXT data: its length-prefixed parts, joined. */
  function Parts(m: seq<byte>, cursor: nat, end: nat): Option<seq<byte>>
    requires end <= |m|
    decreases end - cursor
  {
    if cursor >= end then Some([])
    else if cursor + 1 + m[cursor] > end then None
    else Prepend(m[cursor + 1..cursor + 1 + m[cursor]], Parts(m, cursor + 1 + m[cursor], end))
  }

  datatype Route = Route(host: seq<byte>, validFor: nat)

  function TrimDots(t: seq<byte>): seq<byte> {
    if t != [] && t[|t| - 1] == DOT then TrimDots(t[..|t| - 1]) else t
  }
  function Lower(t: seq<byte>): seq<byte> {
    seq(|t|, (i: nat) requires i < |t| => if 65 <= t[i] <= 90 then t[i] + 32 else t[i])
  }

  /** The routes one answer contributes: at most one, and only from TXT records of class IN. */
  function RoutesOf(rtype: nat, class_: nat, ttl: nat, text: seq<byte>): seq<Route> {
    var host := Lower(TrimDots(TrimEnd(TrimStart(text))));
    if rtype == TYPE_TXT && class_ == CLASS_IN && ValidHostname(host)
    then [Route(host, if ttl < 60 then 60 else ttl)] else []
  }

  datatype Fixed = Fixed(rtype: nat, class_: nat, ttl: nat, start: nat, end: nat)

  /** The fixed fields of a record after its name. */
  function ReadFixed(m: seq<byte>, offset: nat): (r: Option<Fixed>)
    ensures r.Some? ==> offset < r.value.start <= r.value.end <= |m|
  {
    match (ReadU16(m, offset), ReadU16(m, offset + 2), ReadU32(m, offset + 4), ReadU16(m, offset + 8))
    case (Some(rtype), Some(class_), Some(ttl), Some(length)) =>
      if offset + 10 + length <= |m| then Some(Fixed(rtype, class_, ttl, offset + 10, offset + 10 + length)) else None
    case _ => None
  }

  function RecordText(m: seq<byte>, f: Fixed): Option<seq<byte>>
    requires f.end <= |m|
  {
    if f.rtype == TYPE_TXT && f.class_ == CLASS_IN then Parts(m, f.start, f.end) else Some([])
  }

  function ReadAnswers(m: seq<byte>, offset: nat, n: nat): Option<seq<Route>>
    decreases n
  {
    if n == 0 then Some([])
    else
      match SkipName(m, offset)
      case None => None
      case Some(after) =>
        match ReadFixed(m, after)
        case None => None
        case Some(f) =>
          match RecordText(m, f)
          case None => None
          case Some(text) => Prepend(RoutesOf(f.rtype, f.class_, f.ttl, text), ReadAnswers(m, f.end, n - 1))
  }

  function Parsed(m: seq<byte>): Option<seq<Route>> {
    if |m| < 12 || ReadU16(m, 0) != Some(QUERY_ID) then None
    else if m[2] < 128 || m[3] % 16 != 0 then None
    else
      match SkipQuestions(m, 12, ReadU16(m, 4).value)
      case None => None
      case Some(offset) => ReadAnswers(m, offset, ReadU16(m, 6).value)
  }

  method ReadParts(m: seq<byte>, start: nat, end: nat) returns (r: Option<seq<byte>>)
    requires end <= |m|
    ensures r == Parts(m, start, end)
  {
    var text: seq<byte>, cursor: nat := [], start;
    PrependTwice([], [], Parts(m, start, end));
    while cursor < end
      invariant Parts(m, start, end) == Prepend(text, Parts(m, cursor, end))
      decreases end - cursor
    {
      var partEnd := cursor + 1 + m[cursor];
      if partEnd > end {
        return None;
      }
      PrependTwice(text, m[cursor + 1..partEnd], Parts(m, partEnd, end));
      text := text + m[cursor + 1..partEnd];
      cursor := partEnd;
    }
    assert text + [] == text;
    r := Some(text);
  }

  /** Reads any byte string; it never reads outside it and always ends. */
  method ParseTxtResponse(m: seq<byte>) returns (r: Option<seq<Route>>)
    ensures r == Parsed(m)
  {
    if |m| < 12 || ReadU16(m, 0) != Some(QUERY_ID) || m[2] < 128 || m[3] % 16 != 0 {
      return None;
    }
    var questions, answers := ReadU16(m, 4).value, ReadU16(m, 6).value;
    var offset: nat := 12;
    for i := 0 to questions
      invariant SkipQuestions(m, 12, questions) == SkipQuestions(m, offset, questions - i)
    {
      var after := SkipDnsName(m, offset);
      if after.None? || after.value + 4 > |m| {
        return None;
      }
      offset := after.value + 4;
    }
    r := ReadAll(m, offset, answers);
  }

  method ReadAll(m: seq<byte>, start: nat, answers: nat) returns (r: Option<seq<Route>>)
    ensures r == ReadAnswers(m, start, answers)
  {
    hide RoutesOf;
    var routes: seq<Route>, offset: nat := [], start;
    PrependTwice([], [], ReadAnswers(m, start, answers));
    for i := 0 to answers
      invariant ReadAnswers(m, start, answers) == Prepend(routes, ReadAnswers(m, offset, answers - i))
    {
      var after := SkipDnsName(m, offset);
      if after.None? {
        return None;
      }
      var fixed := ReadFixed(m, after.value);
      if fixed.None? {
        return None;
      }
      var f := fixed.value;
      var text: Option<seq<byte>> := Some([]);
      if f.rtype == TYPE_TXT && f.class_ == CLASS_IN {
        text := ReadParts(m, f.start, f.end);
      }
      if text.None? {
        return None;
      }
      PrependTwice(routes, RoutesOf(f.rtype, f.class_, f.ttl, text.value), ReadAnswers(m, f.end, answers - i - 1));
      routes := routes + RoutesOf(f.rtype, f.class_, f.ttl, text.value);
      offset := f.end;
    }
    assert routes + [] == routes;
    r := Some(routes);
  }

  // ----- well-formed messages -----

  /** A name on the wire: labels, then the end or a compression pointer. */
  datatype WireName = WireName(labels: seq<seq<byte>>, pointer: Option<(byte, byte)>)

  datatype Question = Question(name: WireName, rest: seq<byte>)

  /** The data of a record: parts of text for TXT, any bytes otherwise. */
  datatype Data = Text(parts: seq<seq<byte>>) | Raw(bytes: seq<byte>)

  datatype Answer = Answer(name: WireName, rtype: nat, class_: nat, ttl: nat, data: Data)

  ghost predicate NameOk(n: WireName) {
    && (forall i :: 0 <= i < |n.labels| ==> 0 < |n.labels[i]| <= 63)
    && (n.pointer.Some? ==> n.pointer.value.0 >= 0xc0)
  }

  ghost predicate DataOk(d: Data) {
    d.Text? ==> forall i :: 0 <= i < |d.parts| ==> |d.parts[i]| < 256
  }

  ghost predicate AnswerOk(a: Answer) {
    && NameOk(a.name) && a.rtype < 0x1_0000 && a.class_ < 0x1_0000 && a.ttl < 0x1_0000_0000
    && DataOk(a.data) && |DataWire(a.data)| < 0x1_0000
    && (a.rtype == TYPE_TXT && a.class_ == CLASS_IN ==> a.data.Text?)
  }

  ghost function NameEnd(n: WireName): seq<byte> {
    match n.pointer
    case Some(p) => [p.0, p.1]
    case None => [0]
  }

  ghost function NameWire(n: WireName): seq<byte>
    requires NameOk(n)
    decreases |n.labels|
  {
    if n.labels == [] then NameEnd(n)
    else [|n.labels[0]|] + n.labels[0] + NameWire(n.(labels := n.labels[1..]))
  }

  ghost function PartsWire(parts: seq<seq<byte>>): seq<byte>
    requires forall i :: 0 <= i < |parts| ==> |parts[i]| < 256
  {
    if parts == [] then [] else [|parts[0]|] + parts[0] + PartsWire(parts[1..])
  }

  ghost function Joined(parts: seq<seq<byte>>): seq<byte> {
    if parts == [] then [] else parts[0] + Joined(parts[1..])
  }

  ghost function DataWire(d: Data): seq<byte>
    requires DataOk(d)
  {
    match d
    case Text(parts) => PartsWire(parts)
    case Raw(bytes) => bytes
  }

  ghost function FixedWire(a: Answer): (bs: seq<byte>)
    requires AnswerOk(a)
    ensures |bs| == 10
  {
    U16(a.rtype) + U16(a.class_) + U32(a.ttl) + U16(|DataWire(a.data)|)
  }

  ghost function AnswerWire(a: Answer): seq<byte>
    requires AnswerOk(a)
  {
    NameWire(a.name) + FixedWire(a) + DataWire(a.data)
  }

  ghost function QuestionsWire(questions: seq<Question>): seq<byte>
    requires forall i :: 0 <= i < |questions| ==> NameOk(questions[i].name) && |questions[i].rest| == 4
  {
    if questions == [] then []
    else NameWire(questions[0].name) + questions[0].rest + QuestionsWire(questions[1..])
  }

  ghost function AnswersWire(answers: seq<Answer>): seq<byte>
    requires forall i :: 0 <= i < |answers| ==> AnswerOk(answers[i])
  {
    if answers == [] then []
    else
      assert AnswerOk(answers[0]);
      AnswerWire(answers[0]) + AnswersWire(answers[1..])
  }

  ghost function AnswerRoutes(a: Answer): seq<Route> {
    RoutesOf(a.rtype, a.class_, a.ttl, if a.data.Text? then Joined(a.data.parts) else [])
  }

  ghost function AllRoutes(answers: seq<Answer>): seq<Route> {
    if answers == [] then [] else AnswerRoutes(answers[0]) + AllRoutes(answers[1..])
  }

  /** The bytes `part` stand in the message at `offset`. */
  ghost predicate Holds(m: seq<byte>, offset: nat, part: seq<byte>) {
    offset + |part| <= |m| && m[offset..offset + |part|] == part
  }

  lemma HoldsBoth(m: seq<byte>, offset: nat, a: seq<byte>, b: seq<byte>)
    requires Holds(m, offset, a + b)
    ensures Holds(m, offset, a) && Holds(m, offset + |a|, b)
  {
    assert m[offset..offset + |a|] == (a + b)[..|a|];
    assert m[offset + |a|..offset + |a| + |b|] == (a + b)[|a|..];
  }

  lemma HoldsFits(m: seq<byte>, offset: nat, part: seq<byte>)
    requires Holds(m, offset, part)
    ensures offset + |part| <= |m|
  {
  }

  lemma HoldsAt(m: seq<byte>, offset: nat, part: seq<byte>, i: nat)
    requires Holds(m, offset, part) && i < |part|
    ensures m[offset + i] == part[i]
  {
    assert m[offset..offset + |part|][i] == part[i];
  }

  lemma HoldsU16(m: seq<byte>, offset: nat, n: nat)
    requires n < 0x1_0000 && Holds(m, offset, U16(n))
    ensures ReadU16(m, offset) == Some(n)
  {
    HoldsAt(m, offset, U16(n), 0);
    HoldsAt(m, offset, U16(n), 1);
  }

  lemma HoldsU32(m: seq<byte>, offset: nat, n: nat)
    requires n < 0x1_0000_0000 && Holds(m, offset, U32(n))
    ensures ReadU32(m, offset) == Some(n)
  {
    HoldsBoth(m, offset, U16(n / 0x1_0000), U16(n % 0x1_0000));
    HoldsU16(m, offset, n / 0x1_0000);
    HoldsU16(m, offset + 2, n % 0x1_0000);
  }

  /** The reader consumes exactly the name the writer wrote, compressed or not. */
  lemma {:induction false} SkipNameExact(m: seq<byte>, offset: nat, n: WireName)
    requires NameOk(n) && Holds(m, offset, NameWire(n))
    ensures SkipName(m, offset) == Some(offset + |NameWire(n)|)
    decreases |n.labels|
  {
    hide Holds;
    HoldsAt(m, offset, NameWire(n), 0);
    HoldsFits(m, offset, NameWire(n));
    if n.labels != [] {
      var rest := n.(labels := n.labels[1..]);
      HoldsBoth(m, offset, [|n.labels[0]|] + n.labels[0], NameWire(rest));
      SkipNameExact(m, offset + 1 + |n.labels[0]|, rest);
    }
  }

  lemma {:induction false} PartsExact(m: seq<byte>, offset: nat, parts: seq<seq<byte>>)
    requires forall i :: 0 <= i < |parts| ==> |parts[i]| < 256
    requires Holds(m, offset, PartsWire(parts))
    ensures Parts(m, offset, offset + |PartsWire(parts)|) == Some(Joined(parts))
    decreases |parts|
  {
    if parts != [] {
      HoldsAt(m, offset, PartsWire(parts), 0);
      HoldsBoth(m, offset, [|parts[0]|] + parts[0], PartsWire(parts[1..]));
      HoldsBoth(m, offset, [|parts[0]|], parts[0]);
      PartsExact(m, offset + 1 + |parts[0]|, parts[1..]);
    }
  }

  lemma FixedExact(m: seq<byte>, offset: nat, a: Answer)
    requires AnswerOk(a) && Holds(m, offset, FixedWire(a)) && Holds(m, offset + 10, DataWire(a.data))
    ensures ReadFixed(m, offset)
         == Some(Fixed(a.rtype, a.class_, a.ttl, offset + 10, offset + 10 + |DataWire(a.data)|))
  {
    hide U16, U32, ReadU16, ReadU32, DataWire;
    var length := |DataWire(a.data)|;
    HoldsBoth(m, offset, U16(a.rtype) + U16(a.class_) + U32(a.ttl), U16(length));
    HoldsBoth(m, offset, U16(a.rtype) + U16(a.class_), U32(a.ttl));
    HoldsBoth(m, offset, U16(a.rtype), U16(a.class_));
    HoldsU16(m, offset, a.rtype);
    HoldsU16(m, offset + 2, a.class_);
    HoldsU32(m, offset + 4, a.ttl);
    HoldsU16(m, offset + 8, length);
  }

  lemma {:induction false} QuestionsExact(m: seq<byte>, offset: nat, questions: seq<Question>)
    requires forall i :: 0 <= i < |questions| ==> NameOk(questions[i].name) && |questions[i].rest| == 4
    requires Holds(m, offset, QuestionsWire(questions))
    ensures SkipQuestions(m, offset, |questions|) == Some(offset + |QuestionsWire(questions)|)
    decreases |questions|
  {
    hide NameWire;
    if questions != [] {
      var q := questions[0];
      HoldsBoth(m, offset, NameWire(q.name) + q.rest, QuestionsWire(questions[1..]));
      HoldsBoth(m, offset, NameWire(q.name), q.rest);
      SkipNameExact(m, offset, q.name);
      QuestionsExact(m, offset + |NameWire(q.name)| + 4, questions[1..]);
    }
  }

  /** One answer: where it ends, and the routes it contributes. */
  lemma AnswerExact(m: seq<byte>, offset: nat, a: Answer)
    requires AnswerOk(a) && Holds(m, offset, AnswerWire(a))
    ensures SkipName(m, offset) == Some(offset + |NameWire(a.name)|)
    ensures var f := ReadFixed(m, offset + |NameWire(a.name)|);
            && f.Some? && f.value.end == offset + |AnswerWire(a)| && RecordText(m, f.value).Some?
            && RoutesOf(f.value.rtype, f.value.class_, f.value.ttl, RecordText(m, f.value).value) == AnswerRoutes(a)
  {
    hide NameWire, FixedWire, PartsWire, RoutesOf, Joined, Parts, ReadFixed, SkipName, NameOk;
    var name, fixed, data := NameWire(a.name), FixedWire(a), DataWire(a.data);
    HoldsBoth(m, offset, name + fixed, data);
    HoldsBoth(m, offset, name, fixed);
    SkipNameExact(m, offset, a.name);
    FixedExact(m, offset + |name|, a);
    if a.data.Text? {
      PartsExact(m, offset + |name| + 10, a.data.parts);
    }
    NotText(a);
  }

  lemma {:induction false} AnswersExact(m: seq<byte>, offset: nat, answers: seq<Answer>)
    requires forall i :: 0 <= i < |answers| ==> AnswerOk(answers[i])
    requires Holds(m, offset, AnswersWire(answers))
    ensures ReadAnswers(m, offset, |answers|) == Some(AllRoutes(answers))
    decreases |answers|
  {
    hide AnswerOk, AnswerWire, AnswerRoutes, RoutesOf, SkipName, ReadFixed, RecordText, NameWire;
    if answers != [] {
      var a := answers[0];
      HoldsBoth(m, offset, AnswerWire(a), AnswersWire(answers[1..]));
      AnswerExact(m, offset, a);
      AnswersExact(m, offset + |AnswerWire(a)|, answers[1..]);
    }
  }

  /** Only TXT records of class IN contribute a route. */
  lemma NotText(a: Answer)
    ensures !(a.rtype == TYPE_TXT && a.class_ == CLASS_IN) ==>
              AnswerRoutes(a) == [] && forall t :: RoutesOf(a.rtype, a.class_, a.ttl, t) == []
  {
  }

  /** A successful response; `tail` is what follows its answers, which the reader does not look at. */
  datatype Response = Response(flags: nat, questions: seq<Question>, answers: seq<Answer>,
                               authorities: nat, additionals: nat, tail: seq<byte>)

  ghost predicate ResponseOk(r: Response) {
    && 0x8000 <= r.flags < 0x1_0000 && r.flags % 16 == 0
    && |r.questions| < 0x1_0000 && |r.answers| < 0x1_0000 && r.authorities < 0x1_0000 && r.additionals < 0x1_0000
    && (forall i :: 0 <= i < |r.questions| ==> NameOk(r.questions[i].name) && |r.questions[i].rest| == 4)
    && forall i :: 0 <= i < |r.answers| ==> AnswerOk(r.answers[i])
  }

  ghost function ResponseWire(r: Response): seq<byte>
    requires ResponseOk(r)
  {
    Header(QUERY_ID, r.flags, |r.questions|, |r.answers|, r.authorities, r.additionals)
    + QuestionsWire(r.questions) + AnswersWire(r.answers) + r.tail
  }

  /**
   A well-formed successful response with any number of questions and answers,
   names compressed or not, and any bytes after them, parses to the routes of
   its answers, in order.
   */
  lemma ResponseParses(r: Response)
    requires ResponseOk(r)
    ensures Parsed(ResponseWire(r)) == Some(AllRoutes(r.answers))
    ensures forall route :: route in AllRoutes(r.answers) ==> ValidHostname(route.host) && route.validFor >= 60
  {
    hide QuestionsWire, AnswersWire, SkipQuestions, ReadAnswers, AllRoutes, NameOk, AnswerOk, ValidHostname, ReadU16;
    var header := Header(QUERY_ID, r.flags, |r.questions|, |r.answers|, r.authorities, r.additionals);
    var q, a := QuestionsWire(r.questions), AnswersWire(r.answers);
    var m := ResponseWire(r);
    assert m[0..|m|] == m;
    HoldsBoth(m, 0, header + q + a, r.tail);
    HoldsBoth(m, 0, header + q, a);
    HoldsBoth(m, 0, header, q);
    HeaderRead(m, r);
    QuestionsExact(m, 12, r.questions);
    AnswersExact(m, 12 + |q|, r.answers);
    RoutesValid(r.answers);
  }

  lemma HeaderRead(m: seq<byte>, r: Response)
    requires ResponseOk(r)
    requires Holds(m, 0, Header(QUERY_ID, r.flags, |r.questions|, |r.answers|, r.authorities, r.additionals))
    ensures ReadU16(m, 0) == Some(QUERY_ID) && ReadU16(m, 4) == Some(|r.questions|) && ReadU16(m, 6) == Some(|r.answers|)
    ensures m[2] == r.flags / 256 && m[3] == r.flags % 256
  {
    var h := Header(QUERY_ID, r.flags, |r.questions|, |r.answers|, r.authorities, r.additionals);
    HoldsAt(m, 0, h, 0);
    HoldsAt(m, 0, h, 1);
    HoldsAt(m, 0, h, 2);
    HoldsAt(m, 0, h, 3);
    HoldsAt(m, 0, h, 4);
    HoldsAt(m, 0, h, 5);
    HoldsAt(m, 0, h, 6);
    HoldsAt(m, 0, h, 7);
  }

  lemma {:induction false} RoutesValid(answers: seq<Answer>)
    ensures forall r :: r in AllRoutes(answers) ==> ValidHostname(r.host) && r.validFor >= 60
  {
    hide ValidHostname, Lower, Joined;
    if answers != [] {
      RoutesValid(answers[1..]);
    }
  }

  /** The reader consumes exactly the name of the query that was written for a valid host. */
  lemma QueryNameSkipped(host: seq<byte>, query: seq<byte>)
    requires ValidHostname(host)
    requires query == Header(QUERY_ID, 0x0100, 1, 0, 0, 0) + LabelsWire(Split(host)) + [0] + U16(TYPE_TXT) + U16(CLASS_IN)
    ensures SkipName(query, 12) == Some(12 + |host| + 2)
  {
    hide Split, LabelsWire, ValidHostname, SkipName, NameOk, TotalLength, U16;
    LabelsOk(host);
    WireLength(Split(host));
    SplitLength(host);
    NameSkipped(Header(QUERY_ID, 0x0100, 1, 0, 0, 0), Split(host), U16(TYPE_TXT) + U16(CLASS_IN), query);
  }

  lemma LabelsOk(host: seq<byte>)
    requires ValidHostname(host)
    ensures NameOk(WireName(Split(host), None))
  {
    var labels := Split(host);
    assert forall i :: 0 <= i < |labels| ==> labels[i] in labels;
  }

  lemma NameSkipped(front: seq<byte>, labels: seq<seq<byte>>, tail: seq<byte>, m: seq<byte>)
    requires NameOk(WireName(labels, None))
    requires m == front + LabelsWire(labels) + [0] + tail
    ensures SkipName(m, |front|) == Some(|front| + |LabelsWire(labels)| + 1)
  {
    hide LabelsWire, NameOk, SkipName, NameWire;
    var n := WireName(labels, None);
    FrontToBack(labels);
    var wire := NameWire(n);
    assert m == front + wire + tail;
    assert m[|front|..|front| + |wire|] == wire;
    SkipNameExact(m, |front|, n);
  }

  /** Writing the labels from the front or from the back is the same. */
  lemma {:induction false} FrontToBack(labels: seq<seq<byte>>)
    requires NameOk(WireName(labels, None))
    ensures NameWire(WireName(labels, None)) == LabelsWire(labels) + [0]
    decreases |labels|
  {
    if labels != [] {
      FrontToBack(labels[1..]);
      FrontLabel(labels);
    }
  }

  lemma {:induction false} FrontLabel(labels: seq<seq<byte>>)
    requires labels != []
    ensures LabelsWire(labels) == [|labels[0]| % 256] + labels[0] + LabelsWire(labels[1..])
    decreases |labels|
  {
    if |labels| > 1 {
      var init := labels[..|labels| - 1];
      FrontLabel(init);
      assert init[1..] == labels[1..][..|labels| - 2];
      assert labels[1..][|labels| - 2] == labels[|labels| - 1];
    } else {
      assert labels[..0] == [];
    }
  }
}
