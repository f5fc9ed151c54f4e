/** Working out the address the HTTP server advertises in download URLs:
    a fixed chain of strategies over the operator's setting, public
    "what is my IP" services, environment variables, the host's bind address
    and the machine's network interfaces. */
module Address {
  import opened JavaText

  // ---------------------------------------------------------------------
  // Classification of IPv4 address text
  // ---------------------------------------------------------------------

  /** isInRange172: the second dot-separated field parses to 16..31. */
  predicate IsInRange172(ip: string)
    ensures IsInRange172(ip) ==> Contains(ip, ".")
  {
    var parts := JavaSplit(ip, ".");
    |parts| >= 2 &&
    match ParseInt(parts[1])
    case Some(second) => 16 <= second <= 31
    case None => false
  }

  /** isPrivateIP: a prefix test for the blocks of section 3 of RFC 1918. */
  predicate IsPrivateIP(ip: string)
    ensures IsPrivateIP(ip) ==> !StartsWith(ip, "127.") && ip != "0.0.0.0"
  {
    PrivateIsNotLoopback(ip);
    StartsWith(ip, "192.168.") || StartsWith(ip, "10.") || (StartsWith(ip, "172.") && IsInRange172(ip))
  }

  /** isPublicIP: neither private, nor loopback, nor the wildcard. */
  predicate IsPublicIP(ip: string)
    ensures IsPublicIP(ip) ==> !IsPrivateIP(ip)
    ensures !IsPublicIP(ip) ==> IsPrivateIP(ip) || StartsWith(ip, "127.") || ip == "0.0.0.0"
  {
    !IsPrivateIP(ip) && !StartsWith(ip, "127.") && ip != "0.0.0.0"
  }

  /** The three private prefixes differ from "127." in their second
      character, and from "0.0.0.0" in their first. */
  lemma PrivateIsNotLoopback(ip: string)
    ensures StartsWith(ip, "192.168.") || StartsWith(ip, "10.") || StartsWith(ip, "172.") ==>
              !StartsWith(ip, "127.") && ip != "0.0.0.0"
  {
    if |ip| >= 2 {
      assert StartsWith(ip, "192.168.") ==> ip[1] == "192.168."[1] == '9';
      assert StartsWith(ip, "10.") ==> ip[1] == "10."[1] == '0';
      assert StartsWith(ip, "172.") ==> ip[1] == "172."[1] == '7';
      assert StartsWith(ip, "127.") ==> ip[1] == "127."[1] == '2';
      assert ip == "0.0.0.0" ==> ip[0] == '0';
      assert StartsWith(ip, "192.168.") || StartsWith(ip, "10.") || StartsWith(ip, "172.") ==> ip[0] == '1';
    }
  }

  /** The text of a dotted-quad address as Inet4Address.getHostAddress
      renders it. */
  function Quad(a: nat, b: nat, c: nat, d: nat): string {
    Dec(a) + "." + Dec(b) + "." + Dec(c) + "." + Dec(d)
  }

  /** The shape check of the external lookup, the regular expression
      \d{1,3}\.\d{1,3}\.\d{1,3}\.\d{1,3} matched against the whole text:
      four groups of one to three digits separated by dots, with no range
      check. */
  predicate IsDottedQuad(s: string) {
    var groups := SplitAll(s, ".");
    |groups| == 4 && forall k :: 0 <= k < 4 ==> 1 <= |groups[k]| <= 3 && AllDigits(groups[k])
  }

  lemma QuadSplits(a: nat, b: nat, c: nat, d: nat)
    ensures SplitAll(Quad(a, b, c, d), ".") == [Dec(a), Dec(b), Dec(c), Dec(d)]
    ensures JavaSplit(Quad(a, b, c, d), ".") == [Dec(a), Dec(b), Dec(c), Dec(d)]
  {
    var da, db, dc, dd := Dec(a), Dec(b), Dec(c), Dec(d);
    var s := da + "." + (db + "." + (dc + "." + dd));
    QuadAssociates(da, db, dc, dd);
    DigitGroupsSplit(da, db, dc, dd);
    OccursAtChar(s, '.', |da|);
    assert IndexOf(s, ".").Some?;
    var groups := [da, db, dc, dd];
    assert DropTrailingEmpty(groups) == groups;
  }

  lemma QuadAssociates(w: string, x: string, y: string, z: string)
    ensures w + "." + x + "." + y + "." + z == w + "." + (x + "." + (y + "." + z))
  {
  }

  lemma DigitGroupsSplit(w: string, x: string, y: string, z: string)
    requires AllDigits(w) && AllDigits(x) && AllDigits(y) && AllDigits(z)
    ensures SplitAll(w + "." + (x + "." + (y + "." + z)), ".") == [w, x, y, z]
  {
    NoDotInDigits(w);
    NoDotInDigits(x);
    NoDotInDigits(y);
    NoDotInDigits(z);
    SplitAllNone(z, '.');
    SplitAllCons(y, '.', z);
    SplitAllCons(x, '.', y + "." + z);
    SplitAllCons(w, '.', x + "." + (y + "." + z));
  }

  lemma NoDotInDigits(s: string)
    requires AllDigits(s)
    ensures forall i :: 0 <= i < |s| ==> s[i] != '.'
  {
  }

  /** Every address with fields below 1000 passes the shape check, which
      therefore also accepts fields above 255. */
  lemma QuadIsDottedQuad(a: nat, b: nat, c: nat, d: nat)
    requires a < 1000 && b < 1000 && c < 1000 && d < 1000
    ensures IsDottedQuad(Quad(a, b, c, d))
  {
    QuadSplits(a, b, c, d);
    DecLength(a);
    DecLength(b);
    DecLength(c);
    DecLength(d);
  }

  /** Two rendered numbers followed by a dot agree as prefixes exactly when
      the numbers are equal. */
  lemma DecDotPrefix(a: nat, x: string, n: nat, y: string)
    ensures StartsWith(Dec(a) + "." + x, Dec(n) + "." + y) <==> a == n && StartsWith(x, y)
  {
    var s, p := Dec(a) + "." + x, Dec(n) + "." + y;
    var da, dn := Dec(a), Dec(n);
    if StartsWith(s, p) {
      DigitsDotPrefixLength(da, x, dn, y);
      assert da == s[..|da|];
      assert dn == p[..|dn|];
      DecInjective(a, n);
      assert x[..|y|] == s[|da| + 1..|p|];
    }
    if a == n && StartsWith(x, y) {
      assert s[..|p|] == da + "." + x[..|y|];
    }
  }

  lemma DigitsDotPrefixLength(da: string, x: string, dn: string, y: string)
    requires AllDigits(da) && AllDigits(dn)
    requires StartsWith(da + "." + x, dn + "." + y)
    ensures |da| == |dn|
  {
    var s, p := da + "." + x, dn + "." + y;
    assert forall k :: 0 <= k < |p| ==> s[k] == p[k] by {
      forall k | 0 <= k < |p| ensures s[k] == p[k] {
        assert s[k] == s[..|p|][k];
      }
    }
    NoDotInDigits(da);
    NoDotInDigits(dn);
    assert p[|dn|] == '.' && s[|dn|] == '.';
    assert |da| <= |dn|;
    assert |da| < |p| ==> p[|da|] == '.';
  }

  /** The address of a quad starts with `n.` exactly when its first field
      is `n`. */
  lemma FirstFieldPrefix(a: nat, b: nat, c: nat, d: nat, n: nat)
    ensures StartsWith(Quad(a, b, c, d), Dec(n) + ".") <==> a == n
  {
    var rest := Dec(b) + "." + Dec(c) + "." + Dec(d);
    QuadHead(a, b, c, d);
    DecDotPrefixOnly(a, rest, n);
  }

  lemma DecDotPrefixOnly(a: nat, x: string, n: nat)
    ensures StartsWith(Dec(a) + "." + x, Dec(n) + ".") <==> a == n
  {
    assert Dec(n) + "." == Dec(n) + "." + "";
    DecDotPrefix(a, x, n, "");
  }

  lemma QuadHead(a: nat, b: nat, c: nat, d: nat)
    ensures Quad(a, b, c, d) == Dec(a) + "." + (Dec(b) + "." + Dec(c) + "." + Dec(d))
    ensures Dec(b) + "." + Dec(c) + "." + Dec(d) == Dec(b) + "." + (Dec(c) + "." + Dec(d))
  {
    var da, db, dc, dd := Dec(a), Dec(b), Dec(c), Dec(d);
    QuadAssociates(da, db, dc, dd);
    assert db + "." + dc + "." + dd == db + "." + (dc + "." + dd);
  }

  lemma TwoFieldPrefix(a: nat, b: nat, c: nat, d: nat, n: nat, m: nat)
    ensures StartsWith(Quad(a, b, c, d), Dec(n) + "." + Dec(m) + ".") <==> a == n && b == m
  {
    var tail := Dec(c) + "." + Dec(d);
    var rest := Dec(b) + "." + tail;
    QuadHead(a, b, c, d);
    assert Dec(n) + "." + Dec(m) + "." == Dec(n) + "." + (Dec(m) + ".");
    DecDotPrefix(a, rest, n, Dec(m) + ".");
    DecDotPrefixOnly(b, tail, m);
  }

  lemma SecondFieldRange(a: nat, b: nat, c: nat, d: nat)
    requires b <= 255
    ensures IsInRange172(Quad(a, b, c, d)) <==> 16 <= b <= 31
  {
    QuadSplits(a, b, c, d);
    ParseIntDec(b);
  }

  /** On canonical dotted quads, isPrivateIP is exactly membership in the
      three blocks of RFC 1918: 10/8, 172.16/12 and 192.168/16. */
  lemma PrivateQuadIsRfc1918(a: nat, b: nat, c: nat, d: nat)
    requires b <= 255
    ensures IsPrivateIP(Quad(a, b, c, d)) <==>
              a == 10 || (a == 172 && 16 <= b <= 31) || (a == 192 && b == 168)
  {
    assert "10." == Dec(10) + ".";
    assert "172." == Dec(172) + ".";
    assert "192.168." == Dec(192) + "." + Dec(168) + ".";
    FirstFieldPrefix(a, b, c, d, 10);
    FirstFieldPrefix(a, b, c, d, 172);
    TwoFieldPrefix(a, b, c, d, 192, 168);
    SecondFieldRange(a, b, c, d);
  }

  /** On canonical dotted quads, isPublicIP excludes the private blocks,
      127/8 and the wildcard 0.0.0.0, and nothing else. */
  lemma PublicQuad(a: nat, b: nat, c: nat, d: nat)
    requires b <= 255
    ensures IsPublicIP(Quad(a, b, c, d)) <==>
              !(a == 10 || (a == 172 && 16 <= b <= 31) || (a == 192 && b == 168))
              && a != 127 && !(a == 0 && b == 0 && c == 0 && d == 0)
  {
    PrivateQuadIsRfc1918(a, b, c, d);
    assert "127." == Dec(127) + ".";
    FirstFieldPrefix(a, b, c, d, 127);
    assert "0.0.0.0" == Quad(0, 0, 0, 0);
    if Quad(a, b, c, d) == Quad(0, 0, 0, 0) {
      QuadSplits(a, b, c, d);
      QuadSplits(0, 0, 0, 0);
      DecInjective(a, 0);
      DecInjective(b, 0);
      DecInjective(c, 0);
      DecInjective(d, 0);
    }
  }

  // ---------------------------------------------------------------------
  // Strategy 2: external lookup services
  // ---------------------------------------------------------------------

  /** The services, in the order they are tried. */
  const IpServices: seq<string> := [
    "https://icanhazip.com",
    "https://ipv4.icanhazip.com",
    "https://api.ipify.org",
    "https://checkip.amazonaws.com",
    "https://ipinfo.io/ip"
  ]

  /** What one GET to a service gave: a failure (timeout, connection
      error), or a status code and the first line of the body (None when
      the body is empty). */
  datatype Reply = Unreachable | Reply(code: int, firstLine: Option<string>)

  /** The address a reply yields: its trimmed first line, if the status is
      200 and the line has the dotted-quad shape. */
  function Accepted(r: Reply): Option<string> {
    if r.Reply? && r.code == 200 && r.firstLine.Some? && IsDottedQuad(Trim(r.firstLine.value))
    then Some(Trim(r.firstLine.value))
    else None
  }

  /** The first service, from position `k` on, whose reply is accepted. */
  function FirstAccepted(services: seq<string>, lookup: string -> Reply, k: nat): (r: Option<string>)
    requires k <= |services|
    decreases |services| - k
    ensures r.Some? ==> IsDottedQuad(r.value)
  {
    if k == |services| then None
    else if Accepted(lookup(services[k])).Some? then Accepted(lookup(services[k]))
    else FirstAccepted(services, lookup, k + 1)
  }

  /** The lookup settles on the reply of the first service whose answer
      is accepted, and fails only if no answer is. */
  lemma {:induction false} FirstAcceptedIsFirst(services: seq<string>, lookup: string -> Reply, k: nat)
    requires k <= |services|
    decreases |services| - k
    ensures FirstAccepted(services, lookup, k).None? <==>
              forall m :: k <= m < |services| ==> Accepted(lookup(services[m])).None?
    ensures FirstAccepted(services, lookup, k).Some? ==>
              exists m :: k <= m < |services| && Accepted(lookup(services[m])) == FirstAccepted(services, lookup, k)
                          && forall p :: k <= p < m ==> Accepted(lookup(services[p])).None?
  {
    if k < |services| && Accepted(lookup(services[k])).None? {
      FirstAcceptedIsFirst(services, lookup, k + 1);
    }
  }

  /** getExternalIP: asks each service in turn and stops at the first
      acceptable answer; None where the source throws "All external IP
      detection services failed". */
  method GetExternalIP(lookup: string -> Reply) returns (ip: Option<string>)
    ensures ip == FirstAccepted(IpServices, lookup, 0)
  {
    var k := 0;
    while k < |IpServices|
      invariant 0 <= k <= |IpServices|
      invariant FirstAccepted(IpServices, lookup, 0) == FirstAccepted(IpServices, lookup, k)
    {
      var reply := lookup(IpServices[k]);
      if reply.Reply? && reply.code == 200 && reply.firstLine.Some? {
        var line := Trim(reply.firstLine.value);
        if IsDottedQuad(line) {
          return Some(line);
        }
      }
      k := k + 1;
    }
    return None;
  }

  // ---------------------------------------------------------------------
  // Strategy 3: environment variables
  // ---------------------------------------------------------------------

  /** The variables consulted, in order; the first is the cloud sandbox's
      domain name and is used as it is. */
  const EnvVars: seq<string> := ["REPLIT_DEV_DOMAIN", "REPL_SLUG", "HOSTNAME", "HOST_IP"]

  predicate UsableEnvValue(env: map<string, string>, name: string) {
    name in env && env[name] != "" && env[name] != "localhost"
  }

  /** The value of the first variable from position `k` on that is set,
      non-empty and not "localhost". */
  function FirstEnvValue(names: seq<string>, env: map<string, string>, k: nat): (r: Option<string>)
    requires k <= |names|
    decreases |names| - k
    ensures r.Some? <==> exists m :: k <= m < |names| && UsableEnvValue(env, names[m])
    ensures r.Some? ==> exists m :: k <= m < |names| && UsableEnvValue(env, names[m])
                           && r.value == env[names[m]]
                           && forall p :: k <= p < m ==> !UsableEnvValue(env, names[p])
  {
    if k == |names| then None
    else if UsableEnvValue(env, names[k]) then Some(env[names[k]])
    else FirstEnvValue(names, env, k + 1)
  }

  /** The environment loop of detectServerIp. */
  method FromEnvironment(env: map<string, string>) returns (host: Option<string>)
    ensures host == FirstEnvValue(EnvVars, env, 0)
  {
    for k := 0 to |EnvVars|
      invariant FirstEnvValue(EnvVars, env, 0) == FirstEnvValue(EnvVars, env, k)
    {
      var name := EnvVars[k];
      if name in env && env[name] != "" && env[name] != "localhost" {
        return Some(env[name]);
      }
    }
    return None;
  }

  // ---------------------------------------------------------------------
  // Strategy 5: the network-interface scan
  // ---------------------------------------------------------------------

  datatype InetAddress = InetAddress(isIPv4: bool, isLoopback: bool, hostAddress: string)

  datatype NetworkInterface = NetworkInterface(isLoopback: bool, isUp: bool, addresses: seq<InetAddress>)

  predicate UsableInterface(ni: NetworkInterface) { !ni.isLoopback && ni.isUp }

  predicate UsableAddress(a: InetAddress) { a.isIPv4 && !a.isLoopback }

  /** The addresses of one interface that the scan looks at, in order. */
  function AddressCandidates(addrs: seq<InetAddress>): (r: seq<string>)
    ensures |r| <= |addrs|
  {
    if addrs == [] then []
    else
      var last := addrs[|addrs| - 1];
      AddressCandidates(addrs[..|addrs| - 1]) + (if UsableAddress(last) then [last.hostAddress] else [])
  }

  /** The addresses the scan looks at, interface by interface. */
  function Candidates(ifs: seq<NetworkInterface>): seq<string> {
    if ifs == [] then []
    else
      var last := ifs[|ifs| - 1];
      Candidates(ifs[..|ifs| - 1]) + (if UsableInterface(last) then AddressCandidates(last.addresses) else [])
  }

  /** The first public address among the candidates. */
  function FirstPublic(xs: seq<string>): (r: Option<string>)
    ensures r.Some? ==> IsPublicIP(r.value) && r.value in xs
    ensures r.None? <==> forall k :: 0 <= k < |xs| ==> !IsPublicIP(xs[k])
  {
    if xs == [] then None
    else if IsPublicIP(xs[0]) then Some(xs[0])
    else FirstPublic(xs[1..])
  }

  /** The first private address among the candidates. */
  function FirstPrivate(xs: seq<string>): (r: Option<string>)
    ensures r.Some? ==> IsPrivateIP(r.value) && r.value in xs
    ensures r.None? <==> forall k :: 0 <= k < |xs| ==> !IsPrivateIP(xs[k])
  {
    if xs == [] then None
    else if IsPrivateIP(xs[0]) then Some(xs[0])
    else FirstPrivate(xs[1..])
  }

  /** What getBestNetworkIP promises: the first public candidate, else the
      first private one, else nothing. */
  function BestNetworkIP(ifs: seq<NetworkInterface>): Option<string> {
    var xs := Candidates(ifs);
    if FirstPublic(xs).Some? then FirstPublic(xs) else FirstPrivate(xs)
  }

  lemma {:induction false} FirstPublicAppend(xs: seq<string>, ys: seq<string>)
    ensures FirstPublic(xs + ys) == if FirstPublic(xs).Some? then FirstPublic(xs) else FirstPublic(ys)
  {
    if xs != [] {
      assert (xs + ys)[1..] == xs[1..] + ys;
      FirstPublicAppend(xs[1..], ys);
    } else {
      assert xs + ys == ys;
    }
  }

  lemma {:induction false} FirstPrivateAppend(xs: seq<string>, ys: seq<string>)
    ensures FirstPrivate(xs + ys) == if FirstPrivate(xs).Some? then FirstPrivate(xs) else FirstPrivate(ys)
  {
    if xs != [] {
      assert (xs + ys)[1..] == xs[1..] + ys;
      FirstPrivateAppend(xs[1..], ys);
    } else {
      assert xs + ys == ys;
    }
  }

  /** getBestNetworkIP: the outer loop over the interfaces, with a
      private-address backup and an early return on the first public
      address. */
  method GetBestNetworkIP(ifs: seq<NetworkInterface>) returns (best: Option<string>)
    ensures best == BestNetworkIP(ifs)
  {
    best := None;
    var i := 0;
    while i < |ifs|
      invariant 0 <= i <= |ifs|
      invariant FirstPublic(Candidates(ifs[..i])).None?
      invariant best == FirstPrivate(Candidates(ifs[..i]))
    {
      var ni := ifs[i];
      CandidatesStep(ifs, i);
      if !ni.isLoopback && ni.isUp {
        var found;
        found, best := ScanAddresses(Candidates(ifs[..i]), ni.addresses, best);
        if found.Some? {
          PublicFoundAt(ifs, i);
          return found;
        }
      }
      i := i + 1;
    }
    assert ifs[..i] == ifs;
  }

  /** The inner loop of getBestNetworkIP over one interface's addresses,
      after the candidates `seen` of the earlier interfaces: it stops at the
      first public address, and otherwise keeps the first private one. */
  method ScanAddresses(ghost seen: seq<string>, addrs: seq<InetAddress>, best0: Option<string>)
      returns (found: Option<string>, best: Option<string>)
    requires FirstPublic(seen).None? && best0 == FirstPrivate(seen)
    ensures found == FirstPublic(seen + AddressCandidates(addrs))
    ensures found.None? ==> best == FirstPrivate(seen + AddressCandidates(addrs))
  {
    best := best0;
    var j := 0;
    assert seen + AddressCandidates(addrs[..0]) == seen;
    while j < |addrs|
      invariant 0 <= j <= |addrs|
      invariant FirstPublic(seen + AddressCandidates(addrs[..j])).None?
      invariant best == FirstPrivate(seen + AddressCandidates(addrs[..j]))
    {
      var address := addrs[j];
      ScanStep(seen, addrs, j);
      if address.isIPv4 && !address.isLoopback {
        var ip := address.hostAddress;
        if IsPublicIP(ip) {
          PublicFoundIn(seen, addrs, j);
          return Some(ip), best;
        }
        if best.None? && IsPrivateIP(ip) {
          best := Some(ip);
        }
      }
      j := j + 1;
    }
    assert addrs[..j] == addrs;
    found := None;
  }

  /** A public address among the first j + 1 addresses is the first public
      one of them all. */
  lemma PublicFoundIn(seen: seq<string>, addrs: seq<InetAddress>, j: nat)
    requires j < |addrs| && FirstPublic(seen + AddressCandidates(addrs[..j + 1])).Some?
    ensures FirstPublic(seen + AddressCandidates(addrs)) == FirstPublic(seen + AddressCandidates(addrs[..j + 1]))
  {
    assert addrs == addrs[..j + 1] + addrs[j + 1..];
    AddressCandidatesAppend(addrs[..j + 1], addrs[j + 1..]);
    assert seen + AddressCandidates(addrs) == (seen + AddressCandidates(addrs[..j + 1])) + AddressCandidates(addrs[j + 1..]);
    FirstPublicAppend(seen + AddressCandidates(addrs[..j + 1]), AddressCandidates(addrs[j + 1..]));
  }

  /** A public address on the first i + 1 interfaces is the scan's result. */
  lemma PublicFoundAt(ifs: seq<NetworkInterface>, i: nat)
    requires i < |ifs| && FirstPublic(Candidates(ifs[..i + 1])).Some?
    ensures BestNetworkIP(ifs) == FirstPublic(Candidates(ifs[..i + 1]))
  {
    assert ifs == ifs[..i + 1] + ifs[i + 1..];
    CandidatesAppend(ifs[..i + 1], ifs[i + 1..]);
    FirstPublicAppend(Candidates(ifs[..i + 1]), Candidates(ifs[i + 1..]));
  }

  lemma CandidatesStep(ifs: seq<NetworkInterface>, i: nat)
    requires i < |ifs|
    ensures Candidates(ifs[..i + 1]) ==
              Candidates(ifs[..i]) + (if UsableInterface(ifs[i]) then AddressCandidates(ifs[i].addresses) else [])
    ensures !UsableInterface(ifs[i]) ==> Candidates(ifs[..i + 1]) == Candidates(ifs[..i])
  {
    assert ifs[..i + 1][..i] == ifs[..i];
  }

  /** One address further into the scan: how the first public and first
      private candidate change. */
  lemma ScanStep(seen: seq<string>, addrs: seq<InetAddress>, j: nat)
    requires j < |addrs|
    ensures var step := if UsableAddress(addrs[j]) then [addrs[j].hostAddress] else [];
            && FirstPublic(seen + AddressCandidates(addrs[..j + 1]))
               == (if FirstPublic(seen + AddressCandidates(addrs[..j])).Some?
                   then FirstPublic(seen + AddressCandidates(addrs[..j])) else FirstPublic(step))
            && FirstPrivate(seen + AddressCandidates(addrs[..j + 1]))
               == (if FirstPrivate(seen + AddressCandidates(addrs[..j])).Some?
                   then FirstPrivate(seen + AddressCandidates(addrs[..j])) else FirstPrivate(step))
  {
    var step := if UsableAddress(addrs[j]) then [addrs[j].hostAddress] else [];
    assert addrs[..j + 1][..j] == addrs[..j];
    assert AddressCandidates(addrs[..j + 1]) == AddressCandidates(addrs[..j]) + step;
    assert seen + AddressCandidates(addrs[..j + 1]) == (seen + AddressCandidates(addrs[..j])) + step;
    FirstPublicAppend(seen + AddressCandidates(addrs[..j]), step);
    FirstPrivateAppend(seen + AddressCandidates(addrs[..j]), step);
  }

  lemma {:induction false} AddressCandidatesAppend(xs: seq<InetAddress>, ys: seq<InetAddress>)
    ensures AddressCandidates(xs + ys) == AddressCandidates(xs) + AddressCandidates(ys)
    decreases |ys|
  {
    if ys != [] {
      var zs := ys[..|ys| - 1];
      assert (xs + ys)[..|xs + ys| - 1] == xs + zs;
      AddressCandidatesAppend(xs, zs);
    } else {
      assert xs + ys == xs;
    }
  }

  lemma {:induction false} CandidatesAppend(xs: seq<NetworkInterface>, ys: seq<NetworkInterface>)
    ensures Candidates(xs + ys) == Candidates(xs) + Candidates(ys)
    decreases |ys|
  {
    if ys != [] {
      var zs := ys[..|ys| - 1];
      assert (xs + ys)[..|xs + ys| - 1] == xs + zs;
      CandidatesAppend(xs, zs);
    } else {
      assert xs + ys == xs;
    }
  }

  /** The scan never proposes a loopback address: public addresses exclude
      127/8 and the private blocks do not meet it. */
  lemma BestNetworkIPIsNotLoopback(ifs: seq<NetworkInterface>)
    ensures BestNetworkIP(ifs).Some? ==> !StartsWith(BestNetworkIP(ifs).value, "127.")
  {
  }


  // ---------------------------------------------------------------------
  // detectServerIp: the whole chain
  // ---------------------------------------------------------------------

  /** Everything the chain consults apart from the configured address:
      the replies of the lookup services, the process environment, the
      host's configured bind address, and the interface list (None when the
      enumeration fails). */
  datatype Probes = Probes(
    lookup: string -> Reply,
    env: map<string, string>,
    bukkitIp: string,
    interfaces: Option<seq<NetworkInterface>>)

  /** The address detectServerIp settles on. */
  function ResolveAddress(configuredIp: string, p: Probes): (r: string)
    ensures configuredIp != "" && configuredIp != "0.0.0.0" ==> r == configuredIp
    ensures r == "localhost" || r == configuredIp || r == p.bukkitIp || IsDottedQuad(r) || r in p.env.Values
            || (p.interfaces.Some? && r in Candidates(p.interfaces.value))
  {
    if configuredIp != "" && configuredIp != "0.0.0.0" then configuredIp
    else if FirstAccepted(IpServices, p.lookup, 0).Some? then FirstAccepted(IpServices, p.lookup, 0).value
    else if FirstEnvValue(EnvVars, p.env, 0).Some? then FirstEnvValue(EnvVars, p.env, 0).value
    else if p.bukkitIp != "" && p.bukkitIp != "0.0.0.0" && p.bukkitIp != "localhost" then p.bukkitIp
    else if p.interfaces.Some? && BestNetworkIP(p.interfaces.value).Some?
            && BestNetworkIP(p.interfaces.value).value != "127.0.0.1"
    then BestNetworkIP(p.interfaces.value).value
    else "localhost"
  }

  /** detectServerIp, strategy by strategy. */
  method DetectServerIp(configuredIp: string, p: Probes) returns (ip: string)
    ensures ip == ResolveAddress(configuredIp, p)
  {
    if configuredIp != "" && configuredIp != "0.0.0.0" {
      return configuredIp;
    }
    var external := GetExternalIP(p.lookup);
    if external.Some? && external.value != "" {
      return external.value;
    }
    var fromEnv := FromEnvironment(p.env);
    if fromEnv.Some? {
      return fromEnv.value;
    }
    if p.bukkitIp != "" && p.bukkitIp != "0.0.0.0" && p.bukkitIp != "localhost" {
      return p.bukkitIp;
    }
    if p.interfaces.Some? {
      var detected := GetBestNetworkIP(p.interfaces.value);
      if detected.Some? && detected.value != "127.0.0.1" {
        return detected.value;
      }
    }
    return "localhost";
  }

  /** With every service failing, no usable variable, no host address and
      a single up interface carrying one private IPv4 address, that address
      is advertised rather than "localhost". */
  lemma PrivateInterfaceIsFallback(p: Probes, ip: string)
    requires forall k :: 0 <= k < |IpServices| ==> p.lookup(IpServices[k]) == Unreachable
    requires forall k :: 0 <= k < |EnvVars| ==> EnvVars[k] !in p.env
    requires p.bukkitIp == ""
    requires IsPrivateIP(ip)
    requires p.interfaces == Some([NetworkInterface(false, true, [InetAddress(true, false, ip)])])
    ensures ResolveAddress("", p) == ip
  {
    var ifs := p.interfaces.value;
    var one := [InetAddress(true, false, ip)];
    assert one[..0] == [];
    assert AddressCandidates(one) == [ip];
    assert ifs[..0] == [];
    assert Candidates(ifs) == [ip];
    assert ip != "127.0.0.1" by {
      assert StartsWith("127.0.0.1", "127.");
    }
  }

  /** The chain always produces an address to advertise, provided the
      interface scan never reports an empty address text. */
  lemma ResolvedAddressIsNonEmpty(configuredIp: string, p: Probes)
    requires p.interfaces.Some? ==> forall x :: x in Candidates(p.interfaces.value) ==> x != ""
    ensures ResolveAddress(configuredIp, p) != ""
  {
    var first := FirstAccepted(IpServices, p.lookup, 0);
    if first.Some? {
      assert |SplitAll(first.value, ".")| == 4;
    }
  }
}
