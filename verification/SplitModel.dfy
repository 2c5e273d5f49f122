/**
Split-tunneling policies: validation, normalisation, and what a policy means
for a process and for a destination.
*/
module SplitModel {
  import opened Unicode
  import opened Wrappers

  const MAX_CONFIGS := 64
  const MAX_PATHS := 256
  const MAX_PATH_BYTES := 4096
  const MAX_IP_RANGES := 256

  type u16 = x: int | 0 <= x < 0x1_0000
  type u32 = x: int | 0 <= x < 0x1_0000_0000

  // ----- address ranges -----

  /** An address with a prefix length; IPv4 has 32 bits, IPv6 has 128. */
  datatype Net = Net(bits: seq<bool>, prefix: nat) {
    ghost predicate Valid() { |bits| in {32, 128} && prefix <= |bits| }

    predicate Ipv6() { |bits| == 128 }

    /** Clears the host bits. */
    function Trunc(): (n: Net)
      requires Valid()
      ensures n.Valid() && n.Ipv6() == Ipv6() && n.prefix == prefix
    {
      Net(bits[..prefix] + seq(|bits| - prefix, _ => false), prefix)
    }

    predicate Contains(address: seq<bool>)
      requires Valid()
    {
      |address| == |bits| && address[..prefix] == bits[..prefix]
    }
  }

  type net = n: Net | n.Valid() witness Net(seq(32, _ => false), 0)

  /** The text of a range as a user may write it; spelling 0 is the printed form. */
  datatype RangeText = Blank | Malformed | Oversized | Spelled(net: net, spelling: nat)

  function Canonical(net: net): RangeText { Spelled(net.Trunc(), 0) }

  /** Whether a list of ranges, as written, contains an address. */
  ghost predicate Covers(ranges: seq<RangeText>, address: seq<bool>) {
    exists i :: 0 <= i < |ranges| && ranges[i].Spelled? && ranges[i].net.Contains(address)
  }

  // ----- normalisation -----

  /** Keeps the first occurrence of each wanted value. */
  function Normalize<T(==)>(values: seq<T>, unwanted: T): (r: seq<T>)
  {
    if values == [] then []
    else
      var init, last := Normalize(values[..|values| - 1], unwanted), values[|values| - 1];
      if last == unwanted || last in init then init else init + [last]
  }

  method NormalizeLoop<T(==)>(values: seq<T>, unwanted: T) returns (normalized: seq<T>)
    ensures normalized == Normalize(values, unwanted)
  {
    normalized := [];
    for i := 0 to |values|
      invariant normalized == Normalize(values[..i], unwanted)
    {
      assert values[..i + 1][..i] == values[..i];
      var value := values[i];
      if value != unwanted && value !in normalized {
        normalized := normalized + [value];
      }
    }
    assert values[..|values|] == values;
  }

  ghost predicate Distinct<T>(values: seq<T>) {
    forall i, j :: 0 <= i < j < |values| ==> values[i] != values[j]
  }

  lemma {:induction false} NormalizeMeans<T>(values: seq<T>, unwanted: T)
    ensures forall v :: v in Normalize(values, unwanted) <==> v in values && v != unwanted
    ensures Distinct(Normalize(values, unwanted))
    ensures |Normalize(values, unwanted)| <= |values|
  {
    if values != [] {
      NormalizeMeans(values[..|values| - 1], unwanted);
      assert values == values[..|values| - 1] + [values[|values| - 1]];
    }
  }

  /** A list already without repetition and unwanted values is left alone. */
  lemma {:induction false} NormalizeFixed<T>(values: seq<T>, unwanted: T)
    requires Distinct(values) && unwanted !in values
    ensures Normalize(values, unwanted) == values
  {
    if values != [] {
      var init := values[..|values| - 1];
      NormalizeFixed(init, unwanted);
      assert values == init + [values[|values| - 1]];
    }
  }

  // ----- validation -----

  /** The canonical texts of the written ranges, unless one cannot be parsed. */
  function Parse(values: seq<RangeText>): (r: Option<seq<RangeText>>) {
    if values == [] then Some([])
    else
      match (Parse(values[..|values| - 1]), values[|values| - 1])
      case (None, _) => None
      case (Some(init), Blank) => Some(init)
      case (Some(init), Spelled(net, _)) => Some(init + [Canonical(net)])
      case (Some(_), _) => None
  }

  predicate Parsable(r: RangeText) { r == Blank || r.Spelled? }

  lemma {:induction false} ParseSucceeds(values: seq<RangeText>)
    ensures Parse(values).Some? <==> forall i :: 0 <= i < |values| ==> Parsable(values[i])
  {
    if values != [] {
      ParseSucceeds(values[..|values| - 1]);
    }
  }

  /** Parsing keeps the addresses covered; its results are canonical. */
  lemma {:induction false} ParseMeans(values: seq<RangeText>)
    requires Parse(values).Some?
    ensures |Parse(values).value| <= |values|
    ensures forall v :: v in Parse(values).value ==> v.Spelled? && v == Canonical(v.net)
    ensures forall a :: Covers(Parse(values).value, a) <==> Covers(values, a)
  {
    if values != [] {
      var init, last := values[..|values| - 1], values[|values| - 1];
      ParseMeans(init);
      assert values == init + [last];
      if last.Spelled? {
        TruncFixed(last.net);
      }
      forall a
        ensures Covers(Parse(values).value, a) <==> Covers(values, a)
      {
        CoversConcat(init, [last], a);
        CoversOne(last, a);
        if last.Spelled? {
          TruncContains(last.net, a);
          CoversConcat(Parse(init).value, [Canonical(last.net)], a);
          CoversOne(Canonical(last.net), a);
        }
      }
    }
  }

  lemma CoversConcat(a: seq<RangeText>, b: seq<RangeText>, address: seq<bool>)
    ensures Covers(a + b, address) <==> Covers(a, address) || Covers(b, address)
  {
    var ab := a + b;
    if Covers(a, address) {
      var i :| 0 <= i < |a| && a[i].Spelled? && a[i].net.Contains(address);
      assert ab[i] == a[i];
    }
    if Covers(b, address) {
      var i :| 0 <= i < |b| && b[i].Spelled? && b[i].net.Contains(address);
      assert ab[|a| + i] == b[i];
    }
  }

  lemma CoversOne(r: RangeText, address: seq<bool>)
    ensures Covers([r], address) <==> r.Spelled? && r.net.Contains(address)
  {
    assert [r][0] == r;
  }

  lemma TruncFixed(n: net)
    ensures n.Trunc().Trunc() == n.Trunc()
  {
    assert n.Trunc().bits[..n.prefix] == n.bits[..n.prefix];
  }

  lemma TruncContains(n: net, address: seq<bool>)
    ensures n.Trunc().Contains(address) <==> n.Contains(address)
  {
    assert n.Trunc().bits[..n.prefix] == n.bits[..n.prefix];
  }

  function ValidateIpRanges(values: seq<RangeText>): Result<seq<RangeText>> {
    if |values| > MAX_IP_RANGES then Err("too many IP ranges")
    else if Oversized in values then Err("value too long")
    else
      match Parse(values)
      case None => Err("invalid IP address or CIDR range")
      case Some(parsed) => Ok(Normalize(parsed, Blank))
  }

  datatype SplitMode = Exclude | Include

  datatype SplitConfig = SplitConfig(mode: SplitMode, appPaths: seq<string>, ipRanges: seq<RangeText>) {
    function Validate(): Result<SplitConfig> {
      if |appPaths| > MAX_PATHS then Err("too many application paths")
      else if |ipRanges| > MAX_IP_RANGES then Err("too many IP ranges")
      else if (exists p :: p in appPaths && (|p| > MAX_PATH_BYTES || '\0' in p)) || Oversized in ipRanges
      then Err("value too long")
      else
        match ValidateIpRanges(ipRanges)
        case Err(message) => Err(message)
        case Ok(ranges) => Ok(SplitConfig(mode, Normalize(appPaths, ""), ranges))
    }

    predicate HasAppRules() { exists p :: p in appPaths && p != "" }

    predicate HasRules() { HasAppRules() || ipRanges != [] }

    predicate Matches(identities: seq<string>) {
      || (mode == Include && exists i :: i in identities && IsOwnClient(i))
      || exists p :: p in appPaths && p != "" && exists i :: i in identities && IdentityMatchesPath(i, p)
    }

    predicate Excludes(matched: bool) { if mode == Exclude then matched else !matched }
  }

  predicate ContainsText(s: string, part: string) {
    exists k :: 0 <= k <= |s| && part <= s[k..]
  }

  predicate IsOwnClient(identity: string) {
    ContainsText(identity, "protonvpn-app") || ContainsText(identity, "proton-omarchy-agent")
  }

  predicate IdentityMatchesPath(identity: string, path: string) {
    identity == path || (path <= identity && |path| < |identity| && IsWhitespace(identity[|path|]))
  }

  type ConfigMap = map<u16, SplitConfig>
  type PolicyMap = map<u16, seq<RangeText>>

  /** What validation leaves: bounded, distinct, canonical. */
  ghost predicate Validated(c: SplitConfig) {
    && |c.appPaths| <= MAX_PATHS && Distinct(c.appPaths) && "" !in c.appPaths
    && (forall p :: p in c.appPaths ==> |p| <= MAX_PATH_BYTES && '\0' !in p)
    && ValidatedRanges(c.ipRanges)
  }

  ghost predicate ValidatedRanges(ranges: seq<RangeText>) {
    && |ranges| <= MAX_IP_RANGES && Distinct(ranges)
    && forall r :: r in ranges ==> r.Spelled? && r == Canonical(r.net)
  }

  /** Canonical texts parse to themselves. */
  lemma {:induction false} ParseFixed(values: seq<RangeText>)
    requires forall r :: r in values ==> r.Spelled? && r == Canonical(r.net)
    ensures Parse(values) == Some(values)
  {
    if values != [] {
      var init, last := values[..|values| - 1], values[|values| - 1];
      ParseFixed(init);
      assert last in values && values == init + [last];
    }
  }

  /** Which lists are accepted; what comes out covers the same addresses, and validation leaves it alone. */
  lemma RangesValidation(values: seq<RangeText>)
    ensures ValidateIpRanges(values).Ok?
       <==> |values| <= MAX_IP_RANGES && forall i :: 0 <= i < |values| ==> Parsable(values[i])
    ensures ValidateIpRanges(values).Ok? ==>
              && ValidatedRanges(ValidateIpRanges(values).value)
              && forall a :: Covers(ValidateIpRanges(values).value, a) <==> Covers(values, a)
    ensures ValidatedRanges(values) <==> ValidateIpRanges(values) == Ok(values)
  {
    ParseSucceeds(values);
    if ValidateIpRanges(values).Ok? {
      ParseMeans(values);
      var parsed := Parse(values).value;
      NormalizeMeans(parsed, Blank);
      forall a
        ensures Covers(Normalize(parsed, Blank), a) <==> Covers(parsed, a)
      {
        SameMembersCover(Normalize(parsed, Blank), parsed, a);
        SameMembersCover(parsed, Normalize(parsed, Blank), a);
      }
    }
    if ValidatedRanges(values) {
      ParseFixed(values);
      NormalizeFixed(values, Blank);
    }
  }

  lemma SameMembersCover(a: seq<RangeText>, b: seq<RangeText>, address: seq<bool>)
    requires forall r :: r in a && r.Spelled? ==> r in b
    ensures Covers(a, address) ==> Covers(b, address)
  {
    if Covers(a, address) {
      var i :| 0 <= i < |a| && a[i].Spelled? && a[i].net.Contains(address);
      assert a[i] in b;
    }
  }

  /**
   Validation keeps the meaning of a configuration: the same processes match,
   the same addresses are covered. It is idempotent, and its results are
   exactly the configurations it leaves alone.
   */
  lemma ConfigValidation(c: SplitConfig)
    ensures c.Validate().Ok? ==>
              var v := c.Validate().value;
              && Validated(v) && v.mode == c.mode
              && (forall ids :: v.Matches(ids) <==> c.Matches(ids))
              && (v.HasAppRules() <==> c.HasAppRules())
              && (forall a :: Covers(v.ipRanges, a) <==> Covers(c.ipRanges, a))
    ensures Validated(c) <==> c.Validate() == Ok(c)
  {
    hide Covers, Normalize, ValidateIpRanges, ValidatedRanges, IdentityMatchesPath, IsOwnClient;
    RangesValidation(c.ipRanges);
    NormalizeMeans(c.appPaths, "");
    if Validated(c) {
      NormalizeFixed(c.appPaths, "");
    }
  }

  /** A path matches the text of a process at argument boundaries only. */
  lemma MatchesAtBoundary(identity: string, path: string)
    ensures IdentityMatchesPath(identity, path)
       <==> exists rest: string :: identity == path + rest && (rest == "" || IsWhitespace(rest[0]))
  {
    if IdentityMatchesPath(identity, path) {
      assert identity == path + identity[|path|..];
    }
  }

  /** In Include mode the client itself is never excluded, whatever the list says. */
  lemma OwnClientStaysInTunnel(c: SplitConfig, identities: seq<string>, i: nat)
    requires c.mode == Include && i < |identities| && IsOwnClient(identities[i])
    ensures !c.Excludes(c.Matches(identities))
  {
    assert identities[i] in identities;
  }
}
