/** Which host names an Istio VirtualService exposes through its Gateways
    (internal/k8s/exposure.go). A host pattern denotes a language of host names;
    the code picks one of two patterns, and what is proved is that the pick denotes
    the intersection of the two languages. */
module IstioReach {
  import opened Wrappers
  import opened Text

  datatype Server = Server(hosts: seq<string>, port: int, protocol: string)

  datatype Entry = Entry(host: string, detail: string, gateway: string)

  // ------------------------------------------------------------ host patterns

  /** Drops the namespace of a qualified Gateway host: "ns/host", "./host" or "any/host". */
  function Unqualified(gatewayHost: string): (h: string) {
    match Cut(gatewayHost, '/')
    case Some((_, after)) => after
    case None => gatewayHost
  }

  lemma CutAt(before: string, after: string, c: char)
    requires c !in before
    ensures Cut(before + [c] + after, c) == Some((before, after))
  {
    FindAfter(before, after, c);
    assert (before + [c] + after)[..|before|] == before && (before + [c] + after)[|before| + 1..] == after;
  }

  /** Only what stands before the first slash is dropped. */
  lemma UnqualifiedExactly(ns: string, host: string)
    requires '/' !in ns
    ensures Unqualified(ns + "/" + host) == host
    ensures '/' !in host ==> Unqualified(host) == host
  {
    CutAt(ns, host, '/');
    assert ns + "/" + host == ns + ['/'] + host;
  }

  predicate Unrestricted(pattern: string) {
    pattern == "" || pattern == "*"
  }

  /** A "*.suffix" pattern covers the hosts below the suffix, not the suffix itself. */
  predicate WildcardCovers(pattern: string, host: string) {
    "*." <= pattern && HasSuffix(host, "." + pattern[2..])
  }

  function NarrowHost(gatewayHost: string, vsHost: string): (r: string) {
    var gh := Unqualified(gatewayHost);
    if Unrestricted(gh) then vsHost
    else if Unrestricted(vsHost) then gh
    else if gh == vsHost then gh
    else if WildcardCovers(gh, vsHost) then vsHost
    else if WildcardCovers(vsHost, gh) then gh
    else ""
  }

  /** The language of a pattern: which host names it stands for. */
  ghost predicate Matches(pattern: string, host: string) {
    if Unrestricted(pattern) then true
    else if "*." <= pattern then HasSuffix(host, pattern[1..])
    else host == pattern
  }

  lemma WildcardCoversIsInclusion(wide: string, narrow: string, host: string)
    requires WildcardCovers(wide, narrow) && !Unrestricted(narrow)
    requires Matches(narrow, host)
    ensures Matches(wide, host)
  {
    assert "." + wide[2..] == wide[1..];
    if "*." <= narrow {
      assert HasSuffix(narrow, narrow[1..]);
      assert narrow[0] == '*' && wide[1] == '.';
      SuffixesNest(narrow, wide[1..], narrow[1..]);
      SuffixTransitive(host, narrow[1..], wide[1..]);
    }
  }

  /** Two wildcards that share a host are nested. */
  lemma WildcardsNest(a: string, b: string, host: string)
    requires "*." <= a && "*." <= b && |a| <= |b|
    requires Matches(a, host) && Matches(b, host)
    ensures WildcardCovers(a, b)
  {
    SuffixesNest(host, a[1..], b[1..]);
    assert "." + a[2..] == a[1..];
    assert HasSuffix(b, b[1..]);
    SuffixTransitive(b, b[1..], a[1..]);
  }

  /** A host both patterns stand for is reported, and under a pattern that stands
      for it: the one case the code loses is an empty VirtualService host met by a
      Gateway host without restriction. */
  lemma NarrowKeepsShared(gatewayHost: string, vsHost: string, host: string)
    requires !(vsHost == "" && Unrestricted(Unqualified(gatewayHost)))
    requires Matches(Unqualified(gatewayHost), host) && Matches(vsHost, host)
    ensures NarrowHost(gatewayHost, vsHost) != ""
    ensures Matches(NarrowHost(gatewayHost, vsHost), host)
  {
    var gh := Unqualified(gatewayHost);
    if !Unrestricted(gh) && !Unrestricted(vsHost) && gh != vsHost { SharedIsCovered(gh, vsHost, host); }
  }

  /** Of two patterns that share a host, one covers the other. */
  lemma SharedIsCovered(a: string, b: string, host: string)
    requires !Unrestricted(a) && !Unrestricted(b) && a != b && Matches(a, host) && Matches(b, host)
    ensures WildcardCovers(a, b) || WildcardCovers(b, a)
  {
    if "*." <= a && "*." <= b {
      if |a| <= |b| { WildcardsNest(a, b, host); } else { WildcardsNest(b, a, host); }
    } else if "*." <= a {
      HostIsCovered(a, host);
    } else {
      HostIsCovered(b, host);
    }
  }

  lemma HostIsCovered(wild: string, host: string)
    requires "*." <= wild && HasSuffix(host, wild[1..])
    ensures WildcardCovers(wild, host)
  {
    assert "." + wild[2..] == wild[1..];
  }

  /** Every reported host is one both patterns stand for. */
  lemma NarrowIsShared(gatewayHost: string, vsHost: string, host: string)
    requires NarrowHost(gatewayHost, vsHost) != ""
    requires Matches(NarrowHost(gatewayHost, vsHost), host)
    ensures Matches(Unqualified(gatewayHost), host) && Matches(vsHost, host)
  {
    var gh := Unqualified(gatewayHost);
    if !Unrestricted(gh) && !Unrestricted(vsHost) && gh != vsHost {
      if WildcardCovers(gh, vsHost) {
        WildcardCoversIsInclusion(gh, vsHost, host);
      } else {
        WildcardCoversIsInclusion(vsHost, gh, host);
      }
    }
  }

  /** Narrowing computes the intersection of two pattern languages. */
  lemma NarrowIsIntersection(gatewayHost: string, vsHost: string, host: string)
    requires NarrowHost(gatewayHost, vsHost) != ""
    ensures Matches(NarrowHost(gatewayHost, vsHost), host)
       <==> Matches(Unqualified(gatewayHost), host) && Matches(vsHost, host)
  {
    if Matches(Unqualified(gatewayHost), host) && Matches(vsHost, host) {
      NarrowKeepsShared(gatewayHost, vsHost, host);
    }
    if Matches(NarrowHost(gatewayHost, vsHost), host) {
      NarrowIsShared(gatewayHost, vsHost, host);
    }
  }

  /** A host name a pattern stands for. */
  ghost function Sample(pattern: string): (host: string)
    ensures Matches(pattern, host)
  {
    if "*." <= pattern then pattern[1..] else pattern
  }

  /** Nothing is reported exactly when the two languages are disjoint, but for the
      empty VirtualService host. */
  lemma NarrowEmptyExactly(gatewayHost: string, vsHost: string)
    ensures NarrowHost(gatewayHost, vsHost) == ""
       <==> (|| (vsHost == "" && Unrestricted(Unqualified(gatewayHost)))
             || !exists host :: Matches(Unqualified(gatewayHost), host) && Matches(vsHost, host))
  {
    var r := NarrowHost(gatewayHost, vsHost);
    if r != "" {
      NarrowIsIntersection(gatewayHost, vsHost, Sample(r));
    } else if !(vsHost == "" && Unrestricted(Unqualified(gatewayHost))) {
      forall host ensures !(Matches(Unqualified(gatewayHost), host) && Matches(vsHost, host)) {
        if Matches(Unqualified(gatewayHost), host) && Matches(vsHost, host) {
          NarrowKeepsShared(gatewayHost, vsHost, host);
        }
      }
    }
  }

  // ------------------------------------------------------ gateway references

  /** A bare name is in the VirtualService's namespace, "ns/name" names another,
      and so does the legacy form name.ns.svc.cluster.local. */
  function SplitGatewayRef(ref: string, defaultNs: string): (r: (string, string)) {
    match Cut(ref, '/')
    case Some((before, after)) => (before, after)
    case None =>
      var parts := Split(ref, '.');
      if |parts| > 1 then (parts[1], parts[0]) else (defaultNs, ref)
  }

  function Qualified(ns: string, name: string): (r: string) {
    if ns == "" then name else ns + "/" + name
  }

  function GatewayKey(ref: string, vsNs: string): (key: string) {
    var (ns, name) := SplitGatewayRef(ref, vsNs);
    Qualified(ns, name)
  }

  /** No separator of a reference. */
  predicate PlainName(s: string) { '/' !in s && '.' !in s }

  /** What may follow name and namespace in the legacy form: nothing, or from a dot on. */
  predicate IsTail(tail: string) { '/' !in tail && (tail != "" ==> tail[0] == '.') }

  lemma FirstPiece(s: string, c: char, a: string, rest: string)
    requires c !in a && s == a + [c] + rest
    ensures Split(s, c) == [a] + Split(rest, c)
  {
    CutAt(a, rest, c);
  }

  lemma SecondPiece(after: string, ns: string, tail: string)
    requires PlainName(ns) && IsTail(tail) && after == ns + tail
    ensures Split(after, '.')[0] == ns
  {
    if tail == "" {
      assert after == ns;
    } else {
      assert after == ns + ['.'] + tail[1..];
      FirstPiece(after, '.', ns, tail[1..]);
    }
  }

  lemma LegacySplit(ref: string, ns: string, name: string, tail: string)
    requires PlainName(ns) && PlainName(name) && IsTail(tail) && ref == name + ['.'] + (ns + tail)
    ensures var parts := Split(ref, '.'); |parts| > 1 && parts[0] == name && parts[1] == ns
  {
    FirstPiece(ref, '.', name, ns + tail);
    SecondPiece(ns + tail, ns, tail);
  }

  lemma Regrouped(a: string, b: string, c: string, d: string)
    ensures a + b + c + d == a + b + (c + d)
  {
  }

  /** The three ways to name a Gateway. */
  lemma ReferenceExactly(ns: string, name: string, tail: string, vsNs: string)
    requires PlainName(ns) && PlainName(name) && IsTail(tail)
    ensures SplitGatewayRef(ns + "/" + name, vsNs) == (ns, name)
    ensures SplitGatewayRef(name, vsNs) == (vsNs, name)
    ensures SplitGatewayRef(name + "." + ns + tail, vsNs) == (ns, name)
  {
    CutAt(ns, name, '/');
    assert ns + "/" + name == ns + ['/'] + name;
    assert Split(name, '.') == [name];
    Regrouped(name, ".", ns, tail);
    LegacySplit(name + "." + ns + tail, ns, name, tail);
    assert '/' !in name + "." + ns + tail;
  }

  /** A Gateway is known as "namespace/name", in the VirtualService's namespace unless the
      reference names another. */
  lemma GatewayKeyExactly(ns: string, name: string, tail: string, vsNs: string)
    requires PlainName(ns) && PlainName(name) && IsTail(tail) && ns != "" && vsNs != ""
    ensures GatewayKey(ns + "/" + name, vsNs) == ns + "/" + name
    ensures GatewayKey(name, vsNs) == vsNs + "/" + name
    ensures GatewayKey(name + "." + ns + tail, vsNs) == ns + "/" + name
  {
    ReferenceExactly(ns, name, tail, vsNs);
  }

  lemma SplitStaysFree(s: string, c: char, bar: char)
    requires bar !in s
    ensures forall p :: p in Split(s, c) ==> bar !in p
    decreases |s|
  {
    match Cut(s, c)
    case None =>
    case Some((before, after)) => SplitStaysFree(after, c, bar);
  }

  lemma GatewayKeyStaysFree(ref: string, vsNs: string)
    requires '|' !in ref && '|' !in vsNs
    ensures '|' !in GatewayKey(ref, vsNs)
  {
    SplitStaysFree(ref, '.', '|');
  }

  function UpperChar(c: char): char {
    if 'a' <= c <= 'z' then (c as int - 'a' as int + 'A' as int) as char else c
  }

  function Upper(s: string): (r: string)
    ensures |r| == |s| && forall i :: 0 <= i < |s| ==> r[i] == UpperChar(s[i])
  {
    if s == "" then "" else [UpperChar(s[0])] + Upper(s[1..])
  }

  lemma UpperExactly(s: string, i: nat)
    requires i < |s|
    ensures if 97 <= s[i] as int <= 122 then Upper(s)[i] as int == s[i] as int - 32 else Upper(s)[i] == s[i]
  {
  }

  function Detail(sv: Server): (d: string) {
    if sv.port <= 0 then ""
    else if sv.protocol == "" then "port " + Decimal(sv.port)
    else Upper(sv.protocol) + " \U{B7} " + Decimal(sv.port)
  }

  /** Servers are told apart by port and protocol, letter case aside; one without a port
      says nothing. */
  lemma DetailExactly(a: Server, b: Server)
    requires IsPlainWord(a.protocol) && IsPlainWord(b.protocol)
    ensures Detail(a) == "" <==> a.port <= 0
    ensures a.port > 0 ==>
              Detail(a) == if a.protocol == "" then "port " + Decimal(a.port) else Upper(a.protocol) + " \U{B7} " + Decimal(a.port)
    ensures a.port > 0 && b.port > 0 ==>
              (Detail(a) == Detail(b) <==> a.port == b.port && Upper(a.protocol) == Upper(b.protocol))
  {
    if a.port > 0 && b.port > 0 {
      DetailCut(a);
      DetailCut(b);
      if Detail(a) == Detail(b) {
        CutUnique(Word(a), Rest(a), Word(b), Rest(b), ' ');
        RestTells(a, b);
      }
    }
  }

  /** No letter outside 'a' to 'z', and no space. */
  predicate IsPlainWord(s: string) { forall c :: c in s ==> 'A' <= c <= 'Z' || 'a' <= c <= 'z' || IsDigit(c) || c == '-' || c == '_' }

  function Word(sv: Server): string { if sv.protocol == "" then "port" else Upper(sv.protocol) }

  function Rest(sv: Server): string
    requires sv.port > 0
  {
    if sv.protocol == "" then Decimal(sv.port) else "\U{B7} " + Decimal(sv.port)
  }

  lemma DetailCut(sv: Server)
    requires sv.port > 0 && IsPlainWord(sv.protocol)
    ensures Detail(sv) == Word(sv) + [' '] + Rest(sv) && ' ' !in Word(sv)
  {
    if sv.protocol == "" {
      assert "port " == "port" + [' '];
    } else {
      assert " \U{B7} " == [' '] + "\U{B7} ";
      forall c | c in Upper(sv.protocol) ensures c != ' ' {
        var i :| 0 <= i < |sv.protocol| && Upper(sv.protocol)[i] == c;
        assert sv.protocol[i] in sv.protocol;
      }
    }
  }

  lemma RestTells(a: Server, b: Server)
    requires a.port > 0 && b.port > 0 && Rest(a) == Rest(b) && Word(a) == Word(b)
    ensures a.port == b.port && Upper(a.protocol) == Upper(b.protocol)
  {
    var x, y := Decimal(a.port), Decimal(b.port);
    assert IsDigit(x[0]) && IsDigit(y[0]) && !IsDigit('\U{B7}');
    if a.protocol != "" {
      assert Rest(a)[0] == '\U{B7}';
      assert Rest(a)[2..] == x && Rest(b)[2..] == y;
    }
  }

  lemma DetailStaysFree(sv: Server)
    requires '|' !in sv.protocol
    ensures '|' !in Detail(sv)
  {
    if sv.port > 0 {
      assert '|' !in Decimal(sv.port) by { assert !IsDigit('|'); }
      assert '|' !in Upper(sv.protocol);
    }
  }

  // -------------------------------------------------------- reachable entries

  /** An empty host list stands for every host. */
  function HostsOrAll(hosts: seq<string>): (r: seq<string>) {
    if hosts == [] then ["*"] else hosts
  }

  ghost function PairReach(key: string, detail: string, gh: string, vhs: seq<string>): set<Entry> {
    set v | v in vhs && NarrowHost(gh, v) != "" :: Entry(NarrowHost(gh, v), detail, key)
  }

  ghost function ServerReach(key: string, detail: string, ghs: seq<string>, vhs: seq<string>): set<Entry> {
    set g, v | g in ghs && v in vhs && NarrowHost(g, v) != "" :: Entry(NarrowHost(g, v), detail, key)
  }

  ghost function GatewayReach(key: string, servers: seq<Server>, vhs: seq<string>): set<Entry> {
    set sv, e | sv in servers && e in ServerReach(key, Detail(sv), HostsOrAll(sv.hosts), vhs) :: e
  }

  /** What one Gateway reference contributes. */
  ghost function RefReach(key: string, vhs: seq<string>, gateways: map<string, seq<Server>>): set<Entry> {
    if key in gateways then GatewayReach(key, gateways[key], vhs)
    else set v | v in vhs :: Entry(v, "", key)
  }

  ghost function Reach(refs: seq<string>, vsNs: string, vhs: seq<string>, gateways: map<string, seq<Server>>): set<Entry> {
    set ref, e | ref in refs && e in RefReach(GatewayKey(ref, vsNs), vhs, gateways) :: e
  }

  /** The key under which an entry is remembered as already reported. */
  function EntryId(e: Entry, known: bool): (id: string) {
    if known then e.gateway + "|" + e.host + "|" + e.detail else e.gateway + "|" + e.host
  }

  ghost predicate Plain(e: Entry) {
    '|' !in e.gateway && '|' !in e.detail
  }

  lemma LastBarUnique(a: string, x: string, b: string, y: string)
    requires '|' !in x && '|' !in y
    requires a + "|" + x == b + "|" + y
    ensures a == b && x == y
  {
    var s, t := a + "|" + x, b + "|" + y;
    assert s[|s| - 1] == if x == "" then '|' else x[|x| - 1];
    assert t[|t| - 1] == if y == "" then '|' else y[|y| - 1];
    if x != "" {
      var x', y' := x[..|x| - 1], y[..|y| - 1];
      assert s[..|s| - 1] == a + "|" + x' && t[..|t| - 1] == b + "|" + y';
      LastBarUnique(a, x', b, y');
      assert x == x' + [x[|x| - 1]] && y == y' + [y[|y| - 1]];
    } else {
      assert a == s[..|s| - 1] && b == t[..|t| - 1];
    }
  }

  lemma EntryIdInjective(a: Entry, b: Entry, gateways: map<string, seq<Server>>)
    requires Plain(a) && Plain(b)
    requires a.gateway !in gateways ==> a.detail == ""
    requires b.gateway !in gateways ==> b.detail == ""
    requires EntryId(a, a.gateway in gateways) == EntryId(b, b.gateway in gateways)
    ensures a == b
  {
    var x := if a.gateway in gateways then a.host + "|" + a.detail else a.host;
    var y := if b.gateway in gateways then b.host + "|" + b.detail else b.host;
    assert EntryId(a, a.gateway in gateways) == a.gateway + "|" + x;
    assert EntryId(b, b.gateway in gateways) == b.gateway + "|" + y;
    CutUnique(a.gateway, x, b.gateway, y, '|');
    if a.gateway in gateways {
      LastBarUnique(a.host, a.detail, b.host, b.detail);
    }
  }

  // -------------------------------------------------------------- the walk

  ghost predicate Distinct(out: seq<Entry>) {
    forall i, j :: 0 <= i < j < |out| ==> out[i] != out[j]
  }

  /** Kubernetes names and protocol names hold no bar, the separator of entry ids. */
  ghost predicate BarFree(refs: seq<string>, vsNs: string, gateways: map<string, seq<Server>>) {
    && (forall ref :: ref in refs ==> '|' !in ref)
    && '|' !in vsNs
    && forall key, sv :: key in gateways && sv in gateways[key] ==> '|' !in sv.protocol
  }

  ghost predicate Reported(out: seq<Entry>, seen: set<string>, gateways: map<string, seq<Server>>) {
    && Distinct(out)
    && seen == (set e | e in out :: EntryId(e, e.gateway in gateways))
    && forall e :: e in out ==> Plain(e) && (e.gateway !in gateways ==> e.detail == "")
  }

  /** Appends one entry unless its id has been seen. */
  method Report(e: Entry, out: seq<Entry>, seen: set<string>, ghost gateways: map<string, seq<Server>>, known: bool)
      returns (out': seq<Entry>, seen': set<string>)
    requires Reported(out, seen, gateways)
    requires Plain(e) && known == (e.gateway in gateways) && (!known ==> e.detail == "")
    ensures Reported(out', seen', gateways)
    ensures (set x | x in out') == (set x | x in out) + {e}
  {
    var id := EntryId(e, known);
    if id in seen {
      ghost var other :| other in out && EntryId(other, other.gateway in gateways) == id;
      EntryIdInjective(e, other, gateways);
      out', seen' := out, seen;
    } else {
      assert e !in out;
      out', seen' := out + [e], seen + {id};
      assert seen' == (set x | x in out' :: EntryId(x, x.gateway in gateways));
    }
  }

  ghost function Entries(out: seq<Entry>): set<Entry> { set e | e in out }

  lemma PairReachStep(key: string, detail: string, gh: string, vhs: seq<string>, i: nat)
    requires i < |vhs|
    ensures PairReach(key, detail, gh, vhs[..i + 1])
         == PairReach(key, detail, gh, vhs[..i])
            + if NarrowHost(gh, vhs[i]) == "" then {} else {Entry(NarrowHost(gh, vhs[i]), detail, key)}
  {
    assert vhs[..i + 1] == vhs[..i] + [vhs[i]];
  }

  lemma Joined(a: set<Entry>, b: set<Entry>, c: set<Entry>)
    ensures a + b + c == a + (b + c)
  {
  }

  method ReportPairs(key: string, detail: string, gh: string, vhs: seq<string>, out: seq<Entry>, seen: set<string>,
                     ghost gateways: map<string, seq<Server>>)
      returns (out': seq<Entry>, seen': set<string>)
    requires Reported(out, seen, gateways) && key in gateways && '|' !in key && '|' !in detail
    ensures Reported(out', seen', gateways)
    ensures Entries(out') == Entries(out) + PairReach(key, detail, gh, vhs)
  {
    out', seen' := out, seen;
    for i := 0 to |vhs|
      invariant Reported(out', seen', gateways)
      invariant Entries(out') == Entries(out) + PairReach(key, detail, gh, vhs[..i])
    {
      PairReachStep(key, detail, gh, vhs, i);
      var host := NarrowHost(gh, vhs[i]);
      if host != "" {
        out', seen' := Report(Entry(host, detail, key), out', seen', gateways, true);
        Joined(Entries(out), PairReach(key, detail, gh, vhs[..i]), {Entry(host, detail, key)});
      }
    }
    assert vhs[..|vhs|] == vhs;
  }

  lemma ServerReachStep(key: string, detail: string, ghs: seq<string>, i: nat, vhs: seq<string>)
    requires i < |ghs|
    ensures ServerReach(key, detail, ghs[..i + 1], vhs) == ServerReach(key, detail, ghs[..i], vhs) + PairReach(key, detail, ghs[i], vhs)
  {
    assert ghs[..i + 1] == ghs[..i] + [ghs[i]];
  }

  method ReportServer(key: string, sv: Server, vhs: seq<string>, out: seq<Entry>, seen: set<string>,
                      ghost gateways: map<string, seq<Server>>)
      returns (out': seq<Entry>, seen': set<string>)
    requires Reported(out, seen, gateways) && key in gateways && '|' !in key && '|' !in sv.protocol
    ensures Reported(out', seen', gateways)
    ensures Entries(out') == Entries(out) + ServerReach(key, Detail(sv), HostsOrAll(sv.hosts), vhs)
  {
    DetailStaysFree(sv);
    var detail, ghs := Detail(sv), HostsOrAll(sv.hosts);
    out', seen' := out, seen;
    for i := 0 to |ghs|
      invariant Reported(out', seen', gateways)
      invariant Entries(out') == Entries(out) + ServerReach(key, detail, ghs[..i], vhs)
    {
      ServerReachStep(key, detail, ghs, i, vhs);
      ghost var before := Entries(out');
      out', seen' := ReportPairs(key, detail, ghs[i], vhs, out', seen', gateways);
      Joined(Entries(out), ServerReach(key, detail, ghs[..i], vhs), PairReach(key, detail, ghs[i], vhs));
      assert Entries(out') == before + PairReach(key, detail, ghs[i], vhs);
    }
    assert ghs[..|ghs|] == ghs;
  }

  method ReportGateway(key: string, servers: seq<Server>, vhs: seq<string>, out: seq<Entry>, seen: set<string>,
                       ghost gateways: map<string, seq<Server>>)
      returns (out': seq<Entry>, seen': set<string>)
    requires Reported(out, seen, gateways) && key in gateways && '|' !in key
    requires forall sv :: sv in servers ==> '|' !in sv.protocol
    ensures Reported(out', seen', gateways)
    ensures Entries(out') == Entries(out) + GatewayReach(key, servers, vhs)
  {
    out', seen' := out, seen;
    for i := 0 to |servers|
      invariant Reported(out', seen', gateways)
      invariant Entries(out') == Entries(out) + GatewayReach(key, servers[..i], vhs)
    {
      GatewayReachStep(key, servers, i, vhs);
      out', seen' := ReportServer(key, servers[i], vhs, out', seen', gateways);
    }
    assert servers[..|servers|] == servers;
  }

  lemma GatewayReachStep(key: string, servers: seq<Server>, i: nat, vhs: seq<string>)
    requires i < |servers|
    ensures GatewayReach(key, servers[..i + 1], vhs)
         == GatewayReach(key, servers[..i], vhs)
            + ServerReach(key, Detail(servers[i]), HostsOrAll(servers[i].hosts), vhs)
  {
    assert servers[..i + 1] == servers[..i] + [servers[i]];
  }

  method ReportUnknown(key: string, vhs: seq<string>, out: seq<Entry>, seen: set<string>,
                       ghost gateways: map<string, seq<Server>>)
      returns (out': seq<Entry>, seen': set<string>)
    requires Reported(out, seen, gateways) && key !in gateways && '|' !in key
    ensures Reported(out', seen', gateways)
    ensures Entries(out') == Entries(out) + set v | v in vhs :: Entry(v, "", key)
  {
    out', seen' := out, seen;
    for i := 0 to |vhs|
      invariant Reported(out', seen', gateways)
      invariant Entries(out') == Entries(out) + set v | v in vhs[..i] :: Entry(v, "", key)
    {
      assert vhs[..i + 1] == vhs[..i] + [vhs[i]];
      out', seen' := Report(Entry(vhs[i], "", key), out', seen', gateways, false);
    }
    assert vhs[..|vhs|] == vhs;
  }

  lemma ReachStep(refs: seq<string>, i: nat, vsNs: string, vhs: seq<string>, gateways: map<string, seq<Server>>)
    requires i < |refs|
    ensures Reach(refs[..i + 1], vsNs, vhs, gateways)
         == Reach(refs[..i], vsNs, vhs, gateways) + RefReach(GatewayKey(refs[i], vsNs), vhs, gateways)
  {
    assert refs[..i + 1] == refs[..i] + [refs[i]];
  }

  /** The reported entries, each once, are exactly the reachable ones. */
  method IstioReach(refs: seq<string>, vsNs: string, vsHosts: seq<string>, gateways: map<string, seq<Server>>)
      returns (out: seq<Entry>)
    requires BarFree(refs, vsNs, gateways)
    ensures Distinct(out)
    ensures Entries(out) == Reach(refs, vsNs, HostsOrAll(vsHosts), gateways)
  {
    var vhs := HostsOrAll(vsHosts);
    var seen: set<string>;
    out, seen := [], {};
    for i := 0 to |refs|
      invariant Reported(out, seen, gateways)
      invariant Entries(out) == Reach(refs[..i], vsNs, vhs, gateways)
    {
      GatewayKeyStaysFree(refs[i], vsNs);
      var key := GatewayKey(refs[i], vsNs);
      if key !in gateways {
        out, seen := ReportUnknown(key, vhs, out, seen, gateways);
      } else {
        out, seen := ReportGateway(key, gateways[key], vhs, out, seen, gateways);
      }
      ReachStep(refs, i, vsNs, vhs, gateways);
    }
    assert refs[..|refs|] == refs;
  }

  // ------------------------------------------------------- reach as languages

  /** Some entry reported for this Gateway under this port detail stands for the host. */
  ghost predicate Exposed(entries: set<Entry>, key: string, detail: string, host: string) {
    exists e :: e in entries && e.gateway == key && e.detail == detail && Matches(e.host, host)
  }

  /** The pattern a Gateway host names, in whatever namespace. */
  ghost predicate NamesHost(gatewayHost: string, pattern: string) {
    if '/' in gatewayHost then exists ns :: '/' !in ns && gatewayHost == ns + "/" + pattern else pattern == gatewayHost
  }

  /** The server accepts the host; one without hosts accepts all. */
  ghost predicate Accepts(sv: Server, host: string) {
    sv.hosts == [] || exists gh, pattern :: gh in sv.hosts && NamesHost(gh, pattern) && Matches(pattern, host)
  }

  /** The Gateway publishes the host under this port detail. */
  ghost predicate Published(servers: seq<Server>, detail: string, host: string) {
    exists sv :: sv in servers && Detail(sv) == detail && Accepts(sv, host)
  }

  /** The VirtualService routes the host; one without hosts routes all. */
  ghost predicate Routed(vsHosts: seq<string>, host: string) {
    vsHosts == [] || exists vh :: vh in vsHosts && Matches(vh, host)
  }

  lemma NamesUnqualified(gatewayHost: string, pattern: string)
    ensures NamesHost(gatewayHost, pattern) <==> pattern == Unqualified(gatewayHost)
  {
    if '/' in gatewayHost {
      var (ns, after) := Cut(gatewayHost, '/').value;
      assert gatewayHost == ns + "/" + after;
      if ns' :| '/' !in ns' && gatewayHost == ns' + "/" + pattern {
        assert ns' + "/" + pattern == ns' + ['/'] + pattern && ns + "/" + after == ns + ['/'] + after;
        CutUnique(ns', pattern, ns, after, '/');
      }
    }
  }

  lemma AcceptsExactly(sv: Server, host: string)
    ensures Accepts(sv, host) <==> exists gh :: gh in HostsOrAll(sv.hosts) && Matches(Unqualified(gh), host)
  {
    forall gh, pattern ensures NamesHost(gh, pattern) <==> pattern == Unqualified(gh) { NamesUnqualified(gh, pattern); }
    if sv.hosts == [] {
      assert "*" in HostsOrAll(sv.hosts) && Unqualified("*") == "*";
    } else if gh :| gh in sv.hosts && Matches(Unqualified(gh), host) {
      assert NamesHost(gh, Unqualified(gh));
    }
  }

  lemma RoutedExactly(vsHosts: seq<string>, host: string)
    ensures Routed(vsHosts, host) <==> exists vh :: vh in HostsOrAll(vsHosts) && Matches(vh, host)
  {
    if vsHosts == [] { assert "*" in HostsOrAll(vsHosts); }
  }

  lemma ExposedIsBoth(refs: seq<string>, vsNs: string, vsHosts: seq<string>, gateways: map<string, seq<Server>>,
                      key: string, detail: string, host: string)
    requires key in gateways
    requires Exposed(Reach(refs, vsNs, HostsOrAll(vsHosts), gateways), key, detail, host)
    ensures Published(gateways[key], detail, host) && Routed(vsHosts, host)
  {
    var vhs := HostsOrAll(vsHosts);
    var e :| e in Reach(refs, vsNs, vhs, gateways) && e.gateway == key && e.detail == detail && Matches(e.host, host);
    var ref :| ref in refs && e in RefReach(GatewayKey(ref, vsNs), vhs, gateways);
    var k := GatewayKey(ref, vsNs);
    assert k == key;
    var sv :| sv in gateways[key] && e in ServerReach(key, Detail(sv), HostsOrAll(sv.hosts), vhs);
    var gh, vh :| gh in HostsOrAll(sv.hosts) && vh in vhs && NarrowHost(gh, vh) == e.host && e.host != "";
    NarrowIsIntersection(gh, vh, host);
    AcceptsExactly(sv, host);
    RoutedExactly(vsHosts, host);
  }

  lemma PairExposed(refs: seq<string>, vsNs: string, vhs: seq<string>, gateways: map<string, seq<Server>>,
                    key: string, sv: Server, gh: string, vh: string, host: string)
    requires exists ref :: ref in refs && GatewayKey(ref, vsNs) == key
    requires key in gateways && sv in gateways[key] && gh in HostsOrAll(sv.hosts) && vh in vhs
    requires NarrowHost(gh, vh) != "" && Matches(NarrowHost(gh, vh), host)
    ensures Exposed(Reach(refs, vsNs, vhs, gateways), key, Detail(sv), host)
  {
    var ref :| ref in refs && GatewayKey(ref, vsNs) == key;
    var e := Entry(NarrowHost(gh, vh), Detail(sv), key);
    assert e in ServerReach(key, Detail(sv), HostsOrAll(sv.hosts), vhs);
    assert e in GatewayReach(key, gateways[key], vhs);
    assert e in RefReach(GatewayKey(ref, vsNs), vhs, gateways);
    assert e in Reach(refs, vsNs, vhs, gateways);
  }

  /** Port by port, what is reported for a known Gateway is the intersection of what
      the Gateway publishes and what the VirtualService routes. */
  lemma ReachIsIntersection(refs: seq<string>, vsNs: string, vsHosts: seq<string>, gateways: map<string, seq<Server>>,
                            key: string, detail: string, host: string)
    requires exists ref :: ref in refs && GatewayKey(ref, vsNs) == key
    requires key in gateways && "" !in vsHosts
    ensures Exposed(Reach(refs, vsNs, HostsOrAll(vsHosts), gateways), key, detail, host)
       <==> Published(gateways[key], detail, host) && Routed(vsHosts, host)
  {
    if Published(gateways[key], detail, host) && Routed(vsHosts, host) {
      assert !EmptyHostLost(gateways[key], detail, vsHosts);
      RestoredHost(refs, vsNs, vsHosts, gateways, key, detail, host);
    }
    if Exposed(Reach(refs, vsNs, HostsOrAll(vsHosts), gateways), key, detail, host) {
      ExposedIsBoth(refs, vsNs, vsHosts, gateways, key, detail, host);
    }
  }

  /** For a Gateway that could not be read, the VirtualService's hosts are reported alone. */
  lemma UnknownGatewayReach(refs: seq<string>, vsNs: string, vsHosts: seq<string>, gateways: map<string, seq<Server>>,
                            key: string, detail: string, host: string)
    requires exists ref :: ref in refs && GatewayKey(ref, vsNs) == key
    requires key !in gateways
    ensures Exposed(Reach(refs, vsNs, HostsOrAll(vsHosts), gateways), key, detail, host) <==> detail == "" && Routed(vsHosts, host)
  {
    var vhs := HostsOrAll(vsHosts);
    RoutedExactly(vsHosts, host);
    if detail == "" && Routed(vsHosts, host) {
      var ref :| ref in refs && GatewayKey(ref, vsNs) == key;
      var vh :| vh in vhs && Matches(vh, host);
      assert Entry(vh, "", key) in RefReach(GatewayKey(ref, vsNs), vhs, gateways);
      assert Entry(vh, "", key) in Reach(refs, vsNs, vhs, gateways);
    }
  }

  // ---------------------------------- where an empty VirtualService host matters

  /** A name no restricted pattern up to a given length stands for. */
  ghost function Long(n: nat): (s: string)
    ensures |s| == n + 1 && forall c :: c in s ==> c == 'a'
  {
    seq(n + 1, _ => 'a')
  }

  lemma LongEscapes(pattern: string, n: nat)
    requires |pattern| <= n && !Unrestricted(pattern)
    ensures !Matches(pattern, Long(n))
  {
    var s := Long(n);
    if "*." <= pattern {
      var cut := |s| - |pattern[1..]|;
      assert s[cut] in s && s[cut..][0] == s[cut];
      assert pattern[1..][0] == '.';
    } else {
      assert s[n] in s && |s| != |pattern|;
    }
  }

  ghost function Longest(entries: set<Entry>): (n: nat)
    ensures forall e :: e in entries ==> |e.host| <= n
  {
    if entries == {} then 0
    else
      var e :| e in entries;
      var n := Longest(entries - {e});
      if |e.host| <= n then n else |e.host|
  }

  /** The server accepts every host. */
  ghost predicate AcceptsAll(sv: Server) {
    sv.hosts == [] || exists gh, pattern :: gh in sv.hosts && NamesHost(gh, pattern) && Unrestricted(pattern)
  }

  /** The Gateway accepts every host and meets an empty VirtualService host, and no other
      host of the VirtualService makes up for the exposure lost. */
  ghost predicate EmptyHostLost(servers: seq<Server>, detail: string, vsHosts: seq<string>) {
    "" in vsHosts && "*" !in vsHosts && exists sv :: sv in servers && Detail(sv) == detail && AcceptsAll(sv)
  }

  lemma AcceptsAllExactly(sv: Server)
    ensures AcceptsAll(sv) <==> exists gh :: gh in HostsOrAll(sv.hosts) && Unrestricted(Unqualified(gh))
  {
    forall gh, pattern ensures NamesHost(gh, pattern) <==> pattern == Unqualified(gh) { NamesUnqualified(gh, pattern); }
    if sv.hosts == [] {
      assert "*" in HostsOrAll(sv.hosts) && Unqualified("*") == "*";
    } else if gh :| gh in sv.hosts && Unrestricted(Unqualified(gh)) {
      assert NamesHost(gh, Unqualified(gh));
    }
  }

  lemma LostHosts(refs: seq<string>, vsNs: string, vsHosts: seq<string>, gateways: map<string, seq<Server>>,
                  key: string, detail: string) returns (host: string)
    requires key in gateways && EmptyHostLost(gateways[key], detail, vsHosts)
    ensures Published(gateways[key], detail, host) && Routed(vsHosts, host)
    ensures !Exposed(Reach(refs, vsNs, HostsOrAll(vsHosts), gateways), key, detail, host)
  {
    var entries := Reach(refs, vsNs, HostsOrAll(vsHosts), gateways);
    host := Long(Longest(entries));
    forall e | e in entries && e.gateway == key ensures !Matches(e.host, host) {
      NoneUnrestricted(refs, vsNs, HostsOrAll(vsHosts), gateways, e);
      LongEscapes(e.host, Longest(entries));
    }
    assert Matches("", host) && "" in vsHosts;
    var sv :| sv in gateways[key] && Detail(sv) == detail && AcceptsAll(sv);
    AllAccepted(sv, host);
  }

  /** A known Gateway never leads to an entry for all hosts, unless that is asked for. */
  lemma NoneUnrestricted(refs: seq<string>, vsNs: string, vhs: seq<string>, gateways: map<string, seq<Server>>, e: Entry)
    requires e in Reach(refs, vsNs, vhs, gateways) && e.gateway in gateways && "*" !in vhs
    ensures !Unrestricted(e.host)
  {
    var ref :| ref in refs && e in RefReach(GatewayKey(ref, vsNs), vhs, gateways);
    var key := GatewayKey(ref, vsNs);
    if key in gateways {
      var sv :| sv in gateways[key] && e in ServerReach(key, Detail(sv), HostsOrAll(sv.hosts), vhs);
      var gh, vh :| gh in HostsOrAll(sv.hosts) && vh in vhs && NarrowHost(gh, vh) == e.host && e.host != "";
      NarrowRestricted(gh, vh);
    }
  }

  lemma NarrowRestricted(gh: string, vh: string)
    requires vh != "*" && NarrowHost(gh, vh) != ""
    ensures !Unrestricted(NarrowHost(gh, vh))
  {
  }

  lemma AllAccepted(sv: Server, host: string)
    requires AcceptsAll(sv)
    ensures Accepts(sv, host)
  {
    if sv.hosts != [] {
      var gh, pattern :| gh in sv.hosts && NamesHost(gh, pattern) && Unrestricted(pattern);
      assert Matches(pattern, host);
    }
  }

  lemma RestoredHost(refs: seq<string>, vsNs: string, vsHosts: seq<string>, gateways: map<string, seq<Server>>,
                     key: string, detail: string, host: string)
    requires exists ref :: ref in refs && GatewayKey(ref, vsNs) == key
    requires key in gateways && !EmptyHostLost(gateways[key], detail, vsHosts)
    requires Published(gateways[key], detail, host) && Routed(vsHosts, host)
    ensures Exposed(Reach(refs, vsNs, HostsOrAll(vsHosts), gateways), key, detail, host)
  {
    var vhs := HostsOrAll(vsHosts);
    var sv :| sv in gateways[key] && Detail(sv) == detail && Accepts(sv, host);
    AcceptsExactly(sv, host);
    AcceptsAllExactly(sv);
    RoutedExactly(vsHosts, host);
    var gh :| gh in HostsOrAll(sv.hosts) && Matches(Unqualified(gh), host);
    var vh :| vh in vhs && Matches(vh, host);
    if vh == "" && Unrestricted(Unqualified(gh)) {
      assert "*" in vhs;
      vh := "*";
    }
    NarrowKeepsShared(gh, vh, host);
    PairExposed(refs, vsNs, vhs, gateways, key, sv, gh, vh, host);
  }

  /** With empty VirtualService hosts allowed, the exact condition for reporting the
      intersection under a port of a known Gateway. */
  lemma ReachIsIntersectionExactly(refs: seq<string>, vsNs: string, vsHosts: seq<string>, gateways: map<string, seq<Server>>,
                                   key: string, detail: string)
    requires exists ref :: ref in refs && GatewayKey(ref, vsNs) == key
    requires key in gateways
    ensures (forall host :: Exposed(Reach(refs, vsNs, HostsOrAll(vsHosts), gateways), key, detail, host)
                       <==> Published(gateways[key], detail, host) && Routed(vsHosts, host))
       <==> !EmptyHostLost(gateways[key], detail, vsHosts)
  {
    if EmptyHostLost(gateways[key], detail, vsHosts) {
      var host := LostHosts(refs, vsNs, vsHosts, gateways, key, detail);
    } else {
      forall host
        ensures Exposed(Reach(refs, vsNs, HostsOrAll(vsHosts), gateways), key, detail, host)
           <==> Published(gateways[key], detail, host) && Routed(vsHosts, host)
      {
        if Published(gateways[key], detail, host) && Routed(vsHosts, host) {
          RestoredHost(refs, vsNs, vsHosts, gateways, key, detail, host);
        }
        if Exposed(Reach(refs, vsNs, HostsOrAll(vsHosts), gateways), key, detail, host) {
          ExposedIsBoth(refs, vsNs, vsHosts, gateways, key, detail, host);
        }
      }
    }
  }
}
