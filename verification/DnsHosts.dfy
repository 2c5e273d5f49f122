/**
What the reader of alternative routing finds, said about the texts and the
bytes and not about the functions that read them: which hosts are valid, which
host an answer carries, and which byte strings are read at all.
*/
module DnsHosts {
  import opened Bytes
  import opened Dns
  import opened Unicode
  import opened Utf8Text
  import opened Wrappers

  // ----- host names -----

  /** The labels with a dot between each two. */
  ghost function Dotted(labels: seq<seq<byte>>): seq<byte>
    requires labels != []
  {
    if |labels| == 1 then labels[0] else Dotted(labels[..|labels| - 1]) + [DOT] + labels[|labels| - 1]
  }

  ghost predicate DotFree(labels: seq<seq<byte>>) {
    forall i :: 0 <= i < |labels| ==> DOT !in labels[i]
  }

  /** A longer last label makes the text longer at its end. */
  lemma DottedGrows(labels: seq<seq<byte>>, more: seq<byte>)
    requires labels != []
    ensures Dotted(labels[|labels| - 1 := labels[|labels| - 1] + more]) == Dotted(labels) + more
  {
    var grown := labels[|labels| - 1 := labels[|labels| - 1] + more];
    assert grown[..|labels| - 1] == labels[..|labels| - 1];
  }

  lemma {:induction false} SplitJoins(host: seq<byte>)
    ensures Dotted(Split(host)) == host && DotFree(Split(host))
  {
    if host != [] {
      var init, last := Split(host[..|host| - 1]), host[|host| - 1];
      SplitJoins(host[..|host| - 1]);
      assert host == host[..|host| - 1] + [last];
      if last == DOT {
        assert (init + [[]])[..|init|] == init;
      } else {
        DottedGrows(init, [last]);
      }
    }
  }

  lemma {:induction false} JoinSplits(labels: seq<seq<byte>>)
    requires labels != [] && DotFree(labels)
    ensures Split(Dotted(labels)) == labels
    decreases |labels|, |labels[|labels| - 1]|
  {
    var init, last := labels[..|labels| - 1], labels[|labels| - 1];
    if last != [] {
      var front, b := last[..|last| - 1], last[|last| - 1];
      var shorter := labels[|labels| - 1 := front];
      assert last == front + [b] && labels == shorter[|labels| - 1 := front + [b]];
      JoinSplits(shorter);
      DottedGrows(shorter, [b]);
      assert Dotted(labels)[..|Dotted(labels)| - 1] == Dotted(shorter);
    } else if init != [] {
      JoinSplits(init);
      assert Dotted(labels)[..|Dotted(labels)| - 1] == Dotted(init);
      assert labels == init + [[]];
    } else {
      assert labels == [[]];
    }
  }

  /** One to 63 letters, digits and dashes, with no dash at either end. */
  ghost predicate LabelText(l: seq<byte>) {
    1 <= |l| <= 63 && forall i :: 0 <= i < |l| ==> LetterOrDigit(l[i]) || (l[i] == ('-' as int) && 0 < i < |l| - 1)
  }

  ghost predicate LetterOrDigit(b: byte) {
    || 'a' as int <= b <= 'z' as int || 'A' as int <= b <= 'Z' as int || '0' as int <= b <= '9' as int
  }

  lemma LabelMeans(l: seq<byte>)
    ensures ValidLabel(l) <==> LabelText(l)
  {
    if ValidLabel(l) {
      forall i | 0 <= i < |l| ensures LetterOrDigit(l[i]) || (l[i] == ('-' as int) && 0 < i < |l| - 1) {
        assert l[i] in l;
      }
    }
    if LabelText(l) {
      assert LetterOrDigit(l[0]) && LetterOrDigit(l[|l| - 1]);
    }
  }

  /** A host is valid iff it is made of valid labels with dots between them and has 1 to 253 bytes. */
  lemma HostnameMeans(host: seq<byte>)
    ensures ValidHostname(host)
       <==> && 0 < |host| <= 253
            && exists labels: seq<seq<byte>> ::
                 labels != [] && Dotted(labels) == host && forall i :: 0 <= i < |labels| ==> LabelText(labels[i])
  {
    hide ValidLabel, LabelText;
    SplitJoins(host);
    forall l ensures ValidLabel(l) <==> LabelText(l) {
      LabelMeans(l);
    }
    if ValidHostname(host) {
      assert forall i :: 0 <= i < |Split(host)| ==> Split(host)[i] in Split(host);
    }
    forall labels: seq<seq<byte>> |
        labels != [] && Dotted(labels) == host && forall i :: 0 <= i < |labels| ==> LabelText(labels[i])
      ensures Split(host) == labels
    {
      forall i | 0 <= i < |labels| ensures DOT !in labels[i] {
        NoDot(labels[i]);
      }
      JoinSplits(labels);
    }
  }

  lemma NoDot(l: seq<byte>)
    requires LabelText(l)
    ensures DOT !in l
  {
  }

  lemma {:induction false} DottedBytes(labels: seq<seq<byte>>)
    requires labels != [] && forall i :: 0 <= i < |labels| ==> ValidLabel(labels[i])
    ensures var host := Dotted(labels);
            && host != [] && HostByte(host[0]) && HostByte(host[|host| - 1])
            && forall b :: b in host ==> HostByte(b) || b == DOT
    decreases |labels|
  {
    var init, last := labels[..|labels| - 1], labels[|labels| - 1];
    assert ValidLabel(last) && last[0] in last && last[|last| - 1] in last;
    if init != [] {
      assert forall i :: 0 <= i < |init| ==> init[i] == labels[i];
      DottedBytes(init);
    }
  }

  /** A valid host starts and ends with a letter or a digit (or a dash), never with a dot or white space. */
  lemma HostEnds(host: seq<byte>)
    requires ValidHostname(host)
    ensures host != [] && HostByte(host[0]) && HostByte(host[|host| - 1])
    ensures forall b :: b in host ==> HostByte(b) || b == DOT
  {
    SplitJoins(host);
    assert forall i :: 0 <= i < |Split(host)| ==> Split(host)[i] in Split(host);
    DottedBytes(Split(host));
  }

  /** The query asks for the host: its labels, which are the host with its dots taken out, then the root. */
  lemma QueryAsks(host: seq<byte>)
    requires ValidHostname(host)
    ensures Dotted(Split(host)) == host && DotFree(Split(host)) && NameOk(WireName(Split(host), None))
    ensures LabelsWire(Split(host)) + [0] == NameWire(WireName(Split(host), None))
  {
    SplitJoins(host);
    LabelsOk(host);
    FrontToBack(Split(host));
  }

  // ----- letter case -----

  /** The byte of the small letter for a capital one; every other byte stays. */
  ghost predicate SmallOf(small: byte, b: byte) {
    small == if 'A' as int <= b <= 'Z' as int then b - ('A' as int) + ('a' as int) else b
  }

  ghost predicate SmallText(small: seq<byte>, text: seq<byte>) {
    |small| == |text| && forall i :: 0 <= i < |text| ==> SmallOf(small[i], text[i])
  }

  lemma LabelCase(small: seq<byte>, name: seq<byte>)
    requires SmallText(small, name)
    ensures ValidLabel(small) <==> ValidLabel(name)
  {
    forall i | 0 <= i < |name| ensures HostByte(small[i]) <==> HostByte(name[i]) {
      assert SmallOf(small[i], name[i]);
    }
    assert forall i :: 0 <= i < |name| ==> small[i] in small && name[i] in name;
  }

  lemma {:induction false} SplitCase(small: seq<byte>, text: seq<byte>)
    requires SmallText(small, text)
    ensures |Split(small)| == |Split(text)|
    ensures forall k :: 0 <= k < |Split(text)| ==> SmallText(Split(small)[k], Split(text)[k])
    decreases |text|
  {
    if text != [] {
      var n := |text| - 1;
      assert SmallOf(small[n], text[n]);
      SplitCase(small[..n], text[..n]);
    }
  }

  lemma HostCase(small: seq<byte>, text: seq<byte>)
    requires SmallText(small, text)
    ensures ValidHostname(small) <==> ValidHostname(text)
  {
    SplitCase(small, text);
    var these, those := Split(small), Split(text);
    forall k | 0 <= k < |those| ensures ValidLabel(these[k]) <==> ValidLabel(those[k]) {
      LabelCase(these[k], those[k]);
    }
    assert forall k :: 0 <= k < |those| ==> these[k] in these && those[k] in those;
  }

  // ----- dots after a host -----

  ghost function Dots(n: nat): (t: seq<byte>)
    ensures |t| == n && forall i :: 0 <= i < n ==> t[i] == DOT
  {
    seq(n, _ => DOT)
  }

  lemma {:induction false} DotsTrimmed(front: seq<byte>, n: nat)
    requires front != [] ==> front[|front| - 1] != DOT
    ensures TrimDots(front + Dots(n)) == front
    decreases n
  {
    if n == 0 {
      assert front + Dots(0) == front;
    } else {
      assert (front + Dots(n))[..|front| + n - 1] == front + Dots(n - 1);
      DotsTrimmed(front, n - 1);
    }
  }

  lemma {:induction false} DotsLost(t: seq<byte>) returns (n: nat)
    ensures t == TrimDots(t) + Dots(n)
    decreases |t|
  {
    if t != [] && t[|t| - 1] == DOT {
      var more := DotsLost(t[..|t| - 1]);
      n := more + 1;
      assert Dots(n) == Dots(more) + [DOT] && t == t[..|t| - 1] + [DOT];
    } else {
      n := 0;
    }
  }

  // ----- the host an answer carries -----

  /** The text is the host, any dots after it and any white space around both. */
  ghost predicate Surrounds(text: seq<byte>, left: string, host: seq<byte>, dots: nat, right: string) {
    Blank(left) && Blank(right) && text == Encoded(left) + (host + Dots(dots)) + Encoded(right)
  }

  ghost predicate IsText(a: Answer) { a.rtype == 16 && a.class_ == 1 && a.data.Text? }

  /** The answer is text of class IN, and its parts together are nothing but this valid host. */
  ghost predicate Carries(a: Answer, host: seq<byte>) {
    && IsText(a) && ValidHostname(host)
    && exists left, dots, right :: Surrounds(Joined(a.data.parts), left, host, dots, right)
  }

  ghost predicate CarriesHost(a: Answer) { exists host :: Carries(a, host) }

  /** The route is to this host in small letters, for the time of the answer but a minute at least. */
  ghost predicate Leads(route: Route, a: Answer, host: seq<byte>) {
    && SmallText(route.host, host)
    && (a.ttl >= 60 ==> route.validFor == a.ttl)
    && (a.ttl < 60 ==> route.validFor == 60)
  }

  lemma SurroundedHost(text: seq<byte>, left: string, host: seq<byte>, dots: nat, right: string)
    requires ValidHostname(host) && Surrounds(text, left, host, dots, right)
    ensures TrimDots(TrimEnd(TrimStart(text))) == host
  {
    hide ValidHostname, TrimStart, TrimEnd, TrimDots, Encoded;
    HostEnds(host);
    var inner := host + Dots(dots);
    var rest := inner + Encoded(right);
    assert text == Encoded(left) + rest && rest[0] == host[0];
    StartTrimmed(left, rest);
    assert inner[|inner| - 1] == DOT || inner[|inner| - 1] == host[|host| - 1];
    EndTrimmed(inner, right);
    DotsTrimmed(host, dots);
  }

  lemma HostSurrounded(text: seq<byte>) returns (left: string, dots: nat, right: string)
    ensures Surrounds(text, left, TrimDots(TrimEnd(TrimStart(text))), dots, right)
  {
    hide TrimStart, TrimEnd, TrimDots, Encoded, Blank, Dots;
    left := StartLost(text);
    right := EndLost(TrimStart(text));
    dots := DotsLost(TrimEnd(TrimStart(text)));
    assert Encoded(left) + (TrimEnd(TrimStart(text)) + Encoded(right))
        == Encoded(left) + TrimEnd(TrimStart(text)) + Encoded(right);
  }

  /** An answer that carries a host gives exactly one route, which leads there; any other gives none. */
  lemma AnswerGives(a: Answer)
    requires AnswerOk(a)
    ensures CarriesHost(a) <==> |AnswerRoutes(a)| == 1
    ensures AnswerRoutes(a) == [] || |AnswerRoutes(a)| == 1
    ensures forall host :: Carries(a, host) ==> |AnswerRoutes(a)| == 1 && Leads(AnswerRoutes(a)[0], a, host)
  {
    hide ValidHostname, AnswerOk, TrimStart, TrimEnd, TrimDots, Joined, Surrounds;
    if IsText(a) {
      var text := Joined(a.data.parts);
      var host := TrimDots(TrimEnd(TrimStart(text)));
      var left, dots, right := HostSurrounded(text);
      HostCase(Lower(host), host);
      assert Carries(a, host) <==> ValidHostname(host);
      forall other | Carries(a, other) ensures other == host {
        var l, d, r :| Surrounds(text, l, other, d, r);
        SurroundedHost(text, l, other, d, r);
      }
    } else {
      TextOnly(a);
    }
  }

  lemma TextOnly(a: Answer)
    requires AnswerOk(a) && !IsText(a)
    ensures AnswerRoutes(a) == []
  {
  }

  // ----- the routes of a response -----

  ghost predicate Increasing(picks: seq<nat>, n: nat) {
    && (forall k :: 0 <= k < |picks| ==> picks[k] < n)
    && forall j, k :: 0 <= j < k < |picks| ==> picks[j] < picks[k]
  }

  ghost predicate PicksHosts(picks: seq<nat>, answers: seq<Answer>) {
    forall i: nat :: i < |answers| ==> (i in picks <==> CarriesHost(answers[i]))
  }

  ghost predicate LeadThere(routes: seq<Route>, picks: seq<nat>, answers: seq<Answer>)
    requires Increasing(picks, |answers|)
  {
    && |routes| == |picks|
    && forall k, host :: 0 <= k < |picks| && Carries(answers[picks[k]], host) ==>
         Leads(routes[k], answers[picks[k]], host)
  }

  /** The routes are to the hosts of exactly the answers that carry one, in the order of the answers. */
  ghost predicate Selects(picks: seq<nat>, answers: seq<Answer>, routes: seq<Route>) {
    Increasing(picks, |answers|) && PicksHosts(picks, answers) && LeadThere(routes, picks, answers)
  }

  lemma {:induction false} RoutesSelected(answers: seq<Answer>) returns (picks: seq<nat>)
    requires forall i :: 0 <= i < |answers| ==> AnswerOk(answers[i])
    ensures Selects(picks, answers, AllRoutes(answers))
  {
    hide AnswerOk, Carries, Leads, AnswerRoutes;
    if answers == [] {
      picks := [];
    } else {
      var later := RoutesSelected(answers[1..]);
      AnswerGives(answers[0]);
      picks := PickFirst(answers, later, AnswerRoutes(answers[0]), AllRoutes(answers[1..]));
    }
  }

  lemma PickFirst(answers: seq<Answer>, later: seq<nat>, first: seq<Route>, routes: seq<Route>) returns (picks: seq<nat>)
    requires answers != [] && Selects(later, answers[1..], routes)
    requires first == [] || |first| == 1
    requires CarriesHost(answers[0]) <==> |first| == 1
    requires forall host :: Carries(answers[0], host) ==> |first| == 1 && Leads(first[0], answers[0], host)
    ensures Selects(picks, answers, first + routes)
  {
    hide Carries, CarriesHost, Leads, LeadThere, PicksHosts;
    var moved: seq<nat> := seq(|later|, (k: nat) requires k < |later| => later[k] + 1);
    picks := if first == [] then moved else [0] + moved;
    var d := |first|;
    assert forall k :: d <= k < |picks| ==> picks[k] == later[k - d] + 1;
    assert Increasing(picks, |answers|);
    PicksMoved(answers, later, picks, d);
    LeadsMoved(answers, later, picks, first, routes);
  }

  lemma PicksMoved(answers: seq<Answer>, later: seq<nat>, picks: seq<nat>, d: nat)
    requires answers != [] && PicksHosts(later, answers[1..]) && (CarriesHost(answers[0]) <==> d == 1)
    requires d <= 1 && |picks| == d + |later| && (d == 1 ==> picks[0] == 0)
    requires forall k :: d <= k < |picks| ==> picks[k] == later[k - d] + 1
    ensures PicksHosts(picks, answers)
  {
    hide CarriesHost;
    forall i: nat | i < |answers| ensures i in picks <==> CarriesHost(answers[i]) {
      PickedLater(later, picks, d, i);
      if i > 0 {
        assert answers[i] == answers[1..][i - 1];
      }
    }
  }

  lemma LeadsMoved(answers: seq<Answer>, later: seq<nat>, picks: seq<nat>, first: seq<Route>, routes: seq<Route>)
    requires answers != [] && Increasing(later, |answers| - 1) && LeadThere(routes, later, answers[1..])
    requires var d := |first|;
             && d <= 1 && |picks| == d + |later| && (d == 1 ==> picks[0] == 0)
             && forall k :: d <= k < |picks| ==> picks[k] == later[k - d] + 1
    requires Increasing(picks, |answers|)
    requires forall host :: Carries(answers[0], host) ==> |first| == 1 && Leads(first[0], answers[0], host)
    ensures LeadThere(first + routes, picks, answers)
  {
    hide Carries, Leads;
    forall k, host | 0 <= k < |picks| && Carries(answers[picks[k]], host)
      ensures Leads((first + routes)[k], answers[picks[k]], host)
    {
      if k >= |first| {
        assert answers[picks[k]] == answers[1..][later[k - |first|]];
      }
    }
  }

  lemma PickedLater(later: seq<nat>, picks: seq<nat>, d: nat, i: nat)
    requires d <= 1 && |picks| == d + |later| && (d == 1 ==> picks[0] == 0)
    requires forall k :: d <= k < |picks| ==> picks[k] == later[k - d] + 1
    ensures i > 0 ==> (i in picks <==> i - 1 in later)
    ensures 0 in picks <==> d == 1
  {
    if i > 0 && i - 1 in later {
      var k :| 0 <= k < |later| && later[k] == i - 1;
      assert picks[k + d] == i;
    }
  }

  // ----- which messages are read -----

  lemma U16Held(m: seq<byte>, offset: nat)
    requires ReadU16(m, offset).Some?
    ensures ReadU16(m, offset).value < 0x1_0000 && Holds(m, offset, U16(ReadU16(m, offset).value))
  {
    var n := ReadU16(m, offset).value;
    assert n / 256 == m[offset] && n % 256 == m[offset + 1];
  }

  lemma U32Held(m: seq<byte>, offset: nat)
    requires ReadU32(m, offset).Some?
    ensures ReadU32(m, offset).value < 0x1_0000_0000 && Holds(m, offset, U32(ReadU32(m, offset).value))
  {
    U16Held(m, offset);
    U16Held(m, offset + 2);
    var n := ReadU32(m, offset).value;
    assert n / 0x1_0000 == ReadU16(m, offset).value && n % 0x1_0000 == ReadU16(m, offset + 2).value;
    HoldsTogether(m, offset, U16(n / 0x1_0000), U16(n % 0x1_0000));
  }

  lemma HoldsTogether(m: seq<byte>, offset: nat, a: seq<byte>, b: seq<byte>)
    requires Holds(m, offset, a) && Holds(m, offset + |a|, b)
    ensures Holds(m, offset, a + b)
  {
    var end := offset + |a| + |b|;
    assert m[offset..end] == m[offset..offset + |a|] + m[offset + |a|..end];
  }

  lemma {:induction false} NameHeld(m: seq<byte>, offset: nat) returns (n: WireName)
    requires SkipName(m, offset).Some?
    ensures NameOk(n) && Holds(m, offset, NameWire(n)) && SkipName(m, offset).value == offset + |NameWire(n)|
    decreases |m| - offset
  {
    hide NameOk, NameWire, Holds;
    var length := m[offset];
    if length == 0 || length >= 0xc0 {
      n := WireName([], if length == 0 then None else Some((length, m[offset + 1])));
      NameEndHeld(m, offset, n.pointer);
    } else {
      var rest := NameHeld(m, offset + 1 + length);
      n := rest.(labels := [m[offset + 1..offset + 1 + length]] + rest.labels);
      LabelHeld(m, offset, rest);
    }
  }

  lemma NameEndHeld(m: seq<byte>, offset: nat, pointer: Option<(byte, byte)>)
    requires match pointer
             case None => offset < |m| && m[offset] == 0
             case Some(p) => offset + 1 < |m| && m[offset] == p.0 >= 0xc0 && m[offset + 1] == p.1
    ensures var n := WireName([], pointer);
            NameOk(n) && Holds(m, offset, NameWire(n)) && |NameWire(n)| == if pointer.None? then 1 else 2
  {
  }

  lemma LabelHeld(m: seq<byte>, offset: nat, rest: WireName)
    requires offset < |m| && 0 < m[offset] <= 63 && offset + 1 + m[offset] <= |m|
    requires NameOk(rest) && Holds(m, offset + 1 + m[offset], NameWire(rest))
    ensures var n := rest.(labels := [m[offset + 1..offset + 1 + m[offset]]] + rest.labels);
            NameOk(n) && Holds(m, offset, NameWire(n)) && |NameWire(n)| == 1 + m[offset] + |NameWire(rest)|
  {
    var length := m[offset];
    var text := m[offset + 1..offset + 1 + length];
    var n := rest.(labels := [text] + rest.labels);
    assert n.labels[1..] == rest.labels && n.(labels := n.labels[1..]) == rest;
    assert NameWire(n) == [length] + text + NameWire(rest);
    HoldsTogether(m, offset, [length] + text, NameWire(rest));
  }

  lemma {:induction false} PartsHeld(m: seq<byte>, cursor: nat, end: nat) returns (parts: seq<seq<byte>>)
    requires cursor <= end <= |m| && Parts(m, cursor, end).Some?
    ensures forall i :: 0 <= i < |parts| ==> |parts[i]| < 256
    ensures PartsWire(parts) == m[cursor..end]
    decreases end - cursor
  {
    if cursor == end {
      parts := [];
    } else {
      var next := cursor + 1 + m[cursor];
      var more := PartsHeld(m, next, end);
      var part := m[cursor + 1..next];
      parts := [part] + more;
      assert parts[1..] == more;
      assert m[cursor..end] == [m[cursor]] + part + m[next..end];
    }
  }

  /** A record that is read is the wire form of an answer. */
  lemma AnswerHeld(m: seq<byte>, offset: nat, name: WireName, f: Fixed) returns (a: Answer)
    requires NameOk(name) && Holds(m, offset, NameWire(name))
    requires ReadFixed(m, offset + |NameWire(name)|) == Some(f) && RecordText(m, f).Some?
    ensures AnswerOk(a) && Holds(m, offset, AnswerWire(a)) && f.end == offset + |AnswerWire(a)|
  {
    hide NameOk, NameWire, Parts, PartsWire, FixedWire, ReadFixed, Holds;
    var after := offset + |NameWire(name)|;
    ReadFixedBounds(m, after);
    var bytes := m[f.start..f.end];
    var data := Raw(bytes);
    if f.rtype == TYPE_TXT && f.class_ == CLASS_IN {
      var parts := PartsHeld(m, f.start, f.end);
      data := Text(parts);
    }
    assert DataOk(data) && DataWire(data) == bytes;
    a := Answer(name, f.rtype, f.class_, f.ttl, data);
    FixedHeld(m, after, a);
    HoldsTogether(m, offset, NameWire(name), FixedWire(a));
    BytesHeld(m, f.start, f.end);
    HoldsTogether(m, offset, NameWire(name) + FixedWire(a), DataWire(data));
  }

  lemma BytesHeld(m: seq<byte>, start: nat, end: nat)
    requires start <= end <= |m|
    ensures Holds(m, start, m[start..end])
  {
  }

  lemma ReadFixedBounds(m: seq<byte>, offset: nat)
    requires ReadFixed(m, offset).Some?
    ensures ReadFixed(m, offset).value.start == offset + 10
  {
  }

  lemma FixedHeld(m: seq<byte>, offset: nat, a: Answer)
    requires NameOk(a.name) && DataOk(a.data) && (a.rtype == TYPE_TXT && a.class_ == CLASS_IN ==> a.data.Text?)
    requires var length := |DataWire(a.data)|;
             ReadFixed(m, offset) == Some(Fixed(a.rtype, a.class_, a.ttl, offset + 10, offset + 10 + length))
    ensures AnswerOk(a) && Holds(m, offset, FixedWire(a))
  {
    hide NameOk, DataOk, DataWire, ReadU16, ReadU32, U16, U32, Holds;
    U16Held(m, offset);
    U16Held(m, offset + 2);
    U32Held(m, offset + 4);
    U16Held(m, offset + 8);
    HoldsTogether(m, offset, U16(a.rtype), U16(a.class_));
    HoldsTogether(m, offset, U16(a.rtype) + U16(a.class_), U32(a.ttl));
    HoldsTogether(m, offset, U16(a.rtype) + U16(a.class_) + U32(a.ttl), U16(|DataWire(a.data)|));
  }

  lemma {:induction false} QuestionsHeld(m: seq<byte>, offset: nat, n: nat) returns (questions: seq<Question>)
    requires offset <= |m| && SkipQuestions(m, offset, n).Some?
    ensures |questions| == n
    ensures forall i :: 0 <= i < n ==> NameOk(questions[i].name) && |questions[i].rest| == 4
    ensures Holds(m, offset, QuestionsWire(questions))
    ensures SkipQuestions(m, offset, n).value == offset + |QuestionsWire(questions)|
    decreases n
  {
    hide NameOk, NameWire, SkipName;
    if n == 0 {
      questions := [];
    } else {
      var name := NameHeld(m, offset);
      var after := offset + |NameWire(name)|;
      var more := QuestionsHeld(m, after + 4, n - 1);
      var q := Question(name, m[after..after + 4]);
      questions := [q] + more;
      assert questions[1..] == more;
      HoldsTogether(m, offset, NameWire(name), q.rest);
      HoldsTogether(m, offset, NameWire(name) + q.rest, QuestionsWire(more));
    }
  }

  lemma {:induction false} AnswersHeld(m: seq<byte>, offset: nat, n: nat) returns (answers: seq<Answer>)
    requires offset <= |m| && ReadAnswers(m, offset, n).Some?
    ensures |answers| == n
    ensures forall i :: 0 <= i < n ==> AnswerOk(answers[i])
    ensures Holds(m, offset, AnswersWire(answers))
    decreases n
  {
    hide NameOk, NameWire, SkipName, ReadFixed, RecordText, RoutesOf, AnswerOk, AnswerWire;
    if n == 0 {
      answers := [];
    } else {
      var name := NameHeld(m, offset);
      var f := ReadFixed(m, offset + |NameWire(name)|).value;
      var a := AnswerHeld(m, offset, name, f);
      var more := AnswersHeld(m, f.end, n - 1);
      answers := [a] + more;
      assert answers[1..] == more;
      HoldsTogether(m, offset, AnswerWire(a), AnswersWire(more));
    }
  }

  /** A message that is read is the wire form of a successful response. */
  lemma ResponseHeld(m: seq<byte>) returns (r: Response)
    requires Parsed(m).Some?
    ensures ResponseOk(r) && m == ResponseWire(r)
  {
    hide SkipQuestions, ReadAnswers, NameOk, AnswerOk, ReadU16, U16, QuestionsWire, AnswersWire;
    var flags := HeaderHeld(m);
    var questions := QuestionsHeld(m, 12, ReadU16(m, 4).value);
    var middle := 12 + |QuestionsWire(questions)|;
    var answers := AnswersHeld(m, middle, ReadU16(m, 6).value);
    var end := middle + |AnswersWire(answers)|;
    HoldsFits(m, middle, AnswersWire(answers));
    r := Response(flags, questions, answers, ReadU16(m, 8).value, ReadU16(m, 10).value, m[end..]);
    assert m == m[0..12] + m[12..middle] + m[middle..end] + m[end..];
  }

  lemma HeaderHeld(m: seq<byte>) returns (flags: nat)
    requires |m| >= 12 && ReadU16(m, 0) == Some(QUERY_ID) && m[2] >= 128 && m[3] % 16 == 0
    ensures 0x8000 <= flags < 0x1_0000 && flags % 16 == 0
    ensures forall k :: k in [4, 6, 8, 10] ==> ReadU16(m, k).Some? && ReadU16(m, k).value < 0x1_0000
    ensures m[0..12] == Header(QUERY_ID, flags, ReadU16(m, 4).value, ReadU16(m, 6).value, ReadU16(m, 8).value, ReadU16(m, 10).value)
  {
    flags := ReadU16(m, 2).value;
    U16Held(m, 0);
    U16Held(m, 2);
    U16Held(m, 4);
    U16Held(m, 6);
    U16Held(m, 8);
    U16Held(m, 10);
    assert m[0..12] == m[0..2] + m[2..4] + m[4..6] + m[6..8] + m[8..10] + m[10..12];
  }

  /**
   The reader accepts exactly the successful responses; from each it returns
   one route for every answer that carries a valid host, in their order, to
   that host in small letters, and nothing else.
   */
  lemma ReaderFindsHosts(m: seq<byte>)
    ensures Parsed(m).Some? <==> exists r :: ResponseOk(r) && m == ResponseWire(r)
    ensures forall r :: ResponseOk(r) && m == ResponseWire(r) ==>
              exists picks :: Selects(picks, r.answers, Parsed(m).value)
  {
    hide Parsed, ResponseOk, ResponseWire, Selects;
    if Parsed(m).Some? {
      var r := ResponseHeld(m);
    }
    forall r | ResponseOk(r) && m == ResponseWire(r)
      ensures Parsed(m).Some? && exists picks :: Selects(picks, r.answers, Parsed(m).value)
    {
      ResponseParses(r);
      AnswersOk(r);
      var picks := RoutesSelected(r.answers);
    }
  }

  lemma AnswersOk(r: Response)
    requires ResponseOk(r)
    ensures forall i :: 0 <= i < |r.answers| ==> AnswerOk(r.answers[i])
  {
  }
}
