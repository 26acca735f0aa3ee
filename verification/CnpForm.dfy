/** The network policy form (web/src/utils/cnpForm.ts): its fields, what makes it valid,
    and its normal form. */
module CnpForm {
  import opened Sequences
  import opened Wrappers
  import opened Text

  datatype LabelPair = LabelPair(key: string, value: string)

  datatype PortEntry = PortEntry(port: string, protocol: string)

  datatype HttpRule = HttpRule(verb: string, path: string)

  datatype PeerKind = LabelPeer | EntityPeer | CidrPeer | FqdnPeer

  datatype Rule = Rule(kind: PeerKind, labels: seq<LabelPair>, namespace: string, entity: string, cidr: string,
                       fqdn: string, ports: seq<PortEntry>, http: seq<HttpRule>)

  datatype Mode = Blacklist | Whitelist

  datatype Section = Section(mode: Mode, rules: seq<Rule>)

  datatype Scope = Namespaced | ClusterWide

  datatype Form = Form(name: string, scope: Scope, namespace: string, comment: string, subject: seq<LabelPair>,
                       subjectNamespace: string, ingress: Section, egress: Section)

  const EMPTY_LABEL := LabelPair("", "")
  const EMPTY_SECTION := Section(Whitelist, [])
  const EMPTY_RULE := Rule(LabelPeer, [EMPTY_LABEL], "", "world", "", "", [], [])

  const PROTOCOLS: seq<string> := ["TCP", "UDP", "SCTP"]
  const ENTITIES: seq<string> := ["world", "cluster", "host", "remote-node", "all", "init", "health", "unmanaged"]

  function Tidy(s: string): string { Trim(s, JsSpace) }

  predicate Blank(s: string) { Tidy(s) == "" }

  lemma TidyTwice(s: string)
    ensures Tidy(Tidy(s)) == Tidy(s)
  {
    TrimIdempotent(s, JsSpace);
  }

  // -------------------------------------------------------------------- labels

  type Labels = map<string, string>

  const NAMESPACE_KEY := "io.kubernetes.pod.namespace"
  const ALIASES: set<string> := {"namespace", "ns"}

  /** Setting this property of a JavaScript object to a string does nothing. */
  const PROTO := "__proto__"

  function Canonical(key: string): string { if key in ALIASES then NAMESPACE_KEY else key }

  function Shown(key: string): string { if key == NAMESPACE_KEY then "namespace" else key }

  /** The map the rows say: later rows win, rows half filled or blank say nothing. */
  function ToMatchLabels(pairs: seq<LabelPair>): Labels {
    if pairs == [] then map[]
    else
      var out, p := ToMatchLabels(pairs[..|pairs| - 1]), pairs[|pairs| - 1];
      if Blank(p.key) || Blank(p.value) || Tidy(p.key) == PROTO then out else out[Canonical(Tidy(p.key)) := Tidy(p.value)]
  }

  /** The labels of a selector: its rows, and the namespace when one is chosen. */
  function SelectorLabels(pairs: seq<LabelPair>, namespace: string): Labels {
    if Blank(namespace) then ToMatchLabels(pairs) else ToMatchLabels(pairs)[NAMESPACE_KEY := Tidy(namespace)]
  }

  function SubjectLabels(form: Form): Labels { SelectorLabels(form.subject, form.subjectNamespace) }

  function PeerLabels(r: Rule): Labels { SelectorLabels(r.labels, r.namespace) }

  /** The order in which the entries of an object are listed. */
  type Order = Labels -> seq<string>

  ghost predicate Lists(order: Order) {
    forall m: Labels :: Distinct(order(m)) && forall k :: k in order(m) <==> k in m
  }

  /** Where a document has label maps: its subject, and the peer of each rule. */
  datatype Place = Subject | Peer(ingress: bool, i: nat)

  /** Equal maps in different places may be listed differently. */
  type Orders = Place -> Order

  ghost predicate AllList(orders: Orders) { forall p: Place :: Lists(orders(p)) }

  ghost predicate Distinct(keys: seq<string>) { forall i, j :: 0 <= i < j < |keys| ==> keys[i] != keys[j] }

  function RowsOf(keys: seq<string>, m: Labels): (rows: seq<LabelPair>)
    requires forall k :: k in keys ==> k in m
    ensures |rows| == |keys| && forall i :: 0 <= i < |keys| ==> rows[i] == LabelPair(Shown(keys[i]), m[keys[i]])
  {
    seq(|keys|, i requires 0 <= i < |keys| => LabelPair(Shown(keys[i]), m[keys[i]]))
  }

  function ToLabelPairs(m: Labels, order: Order): seq<LabelPair>
    requires Lists(order)
  {
    if order(m) == [] then [EMPTY_LABEL] else RowsOf(order(m), m)
  }

  /** What a map the form printed can hold. */
  ghost predicate Printable(m: Labels) {
    forall k :: k in m ==> IsLabel(k, m[k])
  }

  ghost predicate IsLabel(key: string, value: string) {
    key != "" && Tidy(key) == key && key !in ALIASES && key != PROTO && value != "" && Tidy(value) == value
  }

  lemma NamespaceIsLabel(value: string)
    requires value != "" && Tidy(value) == value
    ensures IsLabel(NAMESPACE_KEY, value)
    ensures Tidy("namespace") == "namespace" && "namespace" in ALIASES
  {
    TrimFixed(NAMESPACE_KEY, JsSpace);
    TrimFixed("namespace", JsSpace);
    assert |NAMESPACE_KEY| == 27 && |PROTO| == 9 && |"namespace"| == 9 && |"ns"| == 2;
  }

  lemma {:induction false} LabelsPrintable(pairs: seq<LabelPair>)
    ensures Printable(ToMatchLabels(pairs))
  {
    if pairs != [] {
      LabelsPrintable(pairs[..|pairs| - 1]);
      var p := pairs[|pairs| - 1];
      TidyTwice(p.key);
      TidyTwice(p.value);
      if !Blank(p.value) { NamespaceIsLabel(Tidy(p.value)); }
    }
  }

  lemma SelectorPrintable(pairs: seq<LabelPair>, namespace: string)
    ensures Printable(SelectorLabels(pairs, namespace))
  {
    LabelsPrintable(pairs);
    TidyTwice(namespace);
    if !Blank(namespace) { NamespaceIsLabel(Tidy(namespace)); }
  }

  /** The row says this label: key and value filled, the key trimmed, or an alias of the
      namespace label. */
  ghost predicate RowSays(p: LabelPair, k: string) {
    && Tidy(p.value) != "" && k != "" && k != "__proto__"
    && if k == "io.kubernetes.pod.namespace" then Tidy(p.key) in {k, "namespace", "ns"} else Tidy(p.key) == k && k !in {"namespace", "ns"}
  }

  lemma RowMeans(p: LabelPair, k: string)
    ensures RowSays(p, k) <==> !Blank(p.key) && !Blank(p.value) && Tidy(p.key) != PROTO && Canonical(Tidy(p.key)) == k
  {
    assert |NAMESPACE_KEY| == 27 && |PROTO| == 9 && |"namespace"| == 9 && |"ns"| == 2 && "namespace"[0] == 'n' && PROTO[0] == '_';
  }

  /** A label is there when some row says it, with the value of the last that does. */
  ghost predicate LastRowSays(pairs: seq<LabelPair>, m: Labels, k: string) {
    if forall p :: p in pairs ==> !RowSays(p, k) then k !in m
    else exists i :: 0 <= i < |pairs| && RowSays(pairs[i], k) && k in m && m[k] == Tidy(pairs[i].value)
           && forall j :: i < j < |pairs| ==> !RowSays(pairs[j], k)
  }

  lemma LastRowStep(init: seq<LabelPair>, p: LabelPair, m: Labels, m': Labels, k: string)
    requires LastRowSays(init, m, k)
    requires if RowSays(p, k) then k in m' && m'[k] == Tidy(p.value) else (k in m' <==> k in m) && (k in m ==> m'[k] == m[k])
    ensures LastRowSays(init + [p], m', k)
  {
    var pairs := init + [p];
    assert pairs[|init|] == p;
    if !RowSays(p, k) && exists x :: x in init && RowSays(x, k) {
      var i :| 0 <= i < |init| && RowSays(init[i], k) && m[k] == Tidy(init[i].value) && forall j :: i < j < |init| ==> !RowSays(init[j], k);
      assert pairs[i] == init[i];
      forall j | i < j < |pairs| ensures !RowSays(pairs[j], k) { if j < |init| { assert pairs[j] == init[j]; } }
    }
  }

  lemma {:induction false} MatchLabelsExactly(pairs: seq<LabelPair>, k: string)
    ensures LastRowSays(pairs, ToMatchLabels(pairs), k)
  {
    if pairs != [] {
      var init, p := pairs[..|pairs| - 1], pairs[|pairs| - 1];
      assert pairs == init + [p];
      MatchLabelsExactly(init, k);
      RowMeans(p, k);
      LastRowStep(init, p, ToMatchLabels(init), ToMatchLabels(pairs), k);
    }
  }

  /** A namespace chosen beside the rows is the namespace label, whatever the rows say. */
  lemma SelectorLabelsExactly(pairs: seq<LabelPair>, namespace: string, k: string)
    ensures var m := SelectorLabels(pairs, namespace);
            if k == "io.kubernetes.pod.namespace" && Tidy(namespace) != "" then k in m && m[k] == Tidy(namespace)
            else LastRowSays(pairs, m, k)
  {
    MatchLabelsExactly(pairs, k);
  }

  /** A shown row means the label it was made of. */
  lemma ShownBack(key: string, value: string)
    requires IsLabel(key, value)
    ensures Canonical(Tidy(Shown(key))) == key
    ensures !Blank(Shown(key)) && Tidy(Shown(key)) != PROTO
  {
    NamespaceIsLabel(value);
    assert "namespace"[0] == 'n' && PROTO[0] == '_';
  }

  function Restricted(m: Labels, keys: seq<string>): Labels
    requires forall k :: k in keys ==> k in m
  {
    map k | k in keys :: m[k]
  }

  lemma OneMoreRow(keys: seq<string>, k: string, m: Labels)
    requires k in m && (forall x :: x in keys ==> x in m) && IsLabel(k, m[k])
    ensures ToMatchLabels(RowsOf(keys + [k], m)) == ToMatchLabels(RowsOf(keys, m))[k := m[k]]
    ensures Restricted(m, keys + [k]) == Restricted(m, keys)[k := m[k]]
  {
    var rows := RowsOf(keys + [k], m);
    assert rows == RowsOf(keys, m) + [LabelPair(Shown(k), m[k])];
    assert rows[..|rows| - 1] == RowsOf(keys, m);
    ShownBack(k, m[k]);
  }

  lemma {:induction false} RowsBack(keys: seq<string>, m: Labels)
    requires Printable(m) && forall k :: k in keys ==> k in m
    ensures ToMatchLabels(RowsOf(keys, m)) == Restricted(m, keys)
  {
    if keys != [] {
      var init, k := keys[..|keys| - 1], keys[|keys| - 1];
      assert keys == init + [k] && k in keys;
      RowsBack(init, m);
      OneMoreRow(init, k, m);
    }
  }

  /** Listing a printable map as rows and reading the rows gives the map. */
  lemma PairsBack(m: Labels, order: Order)
    requires Printable(m) && Lists(order)
    ensures ToMatchLabels(ToLabelPairs(m, order)) == m
  {
    var keys := order(m);
    assert forall k :: k in keys <==> k in m;
    if keys == [] {
      assert [EMPTY_LABEL][..0] == [];
    } else {
      RowsBack(keys, m);
    }
  }

  function LongName(k: string): string { if k == "namespace" then "io.kubernetes.pod.namespace" else k }

  lemma ShownExactly(key: string, value: string, k: string)
    requires IsLabel(key, value) && k != ""
    ensures Shown(key) == k <==> k != "io.kubernetes.pod.namespace" && key == LongName(k)
  {
    NamespaceIsLabel("x");
  }

  /** The namespace label is listed by its short name, other labels by their own. */
  lemma PairsShown(m: Labels, order: Order, k: string)
    requires Printable(m) && Lists(order) && k != ""
    ensures (exists p :: p in ToLabelPairs(m, order) && p.key == k) <==> k != "io.kubernetes.pod.namespace" && LongName(k) in m
  {
    var keys := order(m);
    forall x ensures x in keys <==> x in m { }
    if keys != [] {
      var rows := RowsOf(keys, m);
      forall i | 0 <= i < |keys| ensures rows[i].key == k <==> k != "io.kubernetes.pod.namespace" && keys[i] == LongName(k) {
        assert keys[i] in keys;
        ShownExactly(keys[i], m[keys[i]], k);
      }
      if p :| p in rows && p.key == k {
        var i :| 0 <= i < |rows| && rows[i] == p;
      }
      if k != "io.kubernetes.pod.namespace" && LongName(k) in m {
        var i :| 0 <= i < |keys| && keys[i] == LongName(k);
        assert rows[i] in rows;
      }
    }
  }

  predicate HalfFilled(p: LabelPair) { Blank(p.key) != Blank(p.value) }

  predicate RowsFilled(pairs: seq<LabelPair>) { forall p :: p in pairs ==> !HalfFilled(p) }

  lemma PairsFilled(m: Labels, order: Order)
    requires Printable(m) && Lists(order)
    ensures RowsFilled(ToLabelPairs(m, order))
  {
    var keys := order(m);
    forall p | p in RowsOf(keys, m) ensures !HalfFilled(p) {
      var i :| 0 <= i < |keys| && p == RowsOf(keys, m)[i];
      assert keys[i] in keys;
      ShownBack(keys[i], m[keys[i]]);
    }
  }

  /** The labels without the namespace, which has a field of its own. */
  function Unlifted(m: Labels): Labels { m - {NAMESPACE_KEY} }

  function Lifted(m: Labels): string { if NAMESPACE_KEY in m then m[NAMESPACE_KEY] else "" }

  lemma LiftAndBack(m: Labels, order: Order)
    requires Printable(m) && Lists(order)
    ensures SelectorLabels(ToLabelPairs(Unlifted(m), order), Lifted(m)) == m
  {
    PairsBack(Unlifted(m), order);
    if NAMESPACE_KEY in m {
      assert IsLabel(NAMESPACE_KEY, m[NAMESPACE_KEY]);
      assert Unlifted(m)[NAMESPACE_KEY := m[NAMESPACE_KEY]] == m;
    } else {
      assert Unlifted(m) == m;
    }
  }

  // ----------------------------------------------------------------- addresses

  /** A number without leading zeros, in so many digits, not above the bound. */
  predicate SmallNumber(s: string, digits: nat, bound: nat) {
    AllDigits(s) && |s| <= digits && (s[0] == '0' ==> |s| == 1) && Value(s) <= bound
  }

  predicate HasPrefixUpTo(parts: seq<string>, digits: nat, bound: nat) {
    |parts| == 1 || (|parts| == 2 && SmallNumber(parts[1], digits, bound))
  }

  predicate IsV4Address(addr: string) {
    |Split(addr, '.')| == 4 && forall o :: o in Split(addr, '.') ==> SmallNumber(o, 3, 255)
  }

  predicate IsV4Cidr(v: string) {
    HasPrefixUpTo(Split(v, '/'), 2, 32) && IsV4Address(Split(v, '/')[0])
  }

  predicate IsHexOrColon(c: char) { IsDigit(c) || 'a' <= c <= 'f' || 'A' <= c <= 'F' || c == ':' }

  predicate PairAt(addr: string, i: nat) { i + 1 < |addr| && addr[i] == ':' && addr[i + 1] == ':' }

  predicate IsV6Address(addr: string) {
    && (forall c :: c in addr ==> IsHexOrColon(c))
    && ':' in addr
    && (forall i, j :: 0 <= i < j < |addr| ==> !(PairAt(addr, i) && PairAt(addr, j)))
    && (forall g :: g in Split(addr, ':') ==> |g| <= 4)
  }

  predicate IsV6Cidr(v: string) {
    HasPrefixUpTo(Split(v, '/'), 3, 128) && IsV6Address(Split(v, '/')[0])
  }

  predicate IsCidr(v: string) { IsV4Cidr(v) || IsV6Cidr(v) }

  function NormalizeCidr(v: string): string {
    var s := Tidy(v);
    if '/' in s then s else if ':' in s then s + "/128" else s + "/32"
  }

  lemma SplitTwo(a: string, b: string, c: char)
    requires c !in a && c !in b
    ensures Split(a + [c] + b, c) == [a, b]
  {
    FindAfter(a, b, c);
    assert (a + [c] + b)[..|a|] == a && (a + [c] + b)[|a| + 1..] == b;
  }

  /** Splitting loses no character but the separator. */
  lemma {:induction false} SplitCovers(s: string, sep: char, c: char)
    requires c in s && c != sep
    ensures exists p :: p in Split(s, sep) && c in p
    decreases |s|
  {
    match Cut(s, sep)
    case None => assert s in Split(s, sep);
    case Some((before, after)) =>
      if c in before {
        assert Split(s, sep)[0] == before;
      } else {
        SplitCovers(after, sep, c);
        var p :| p in Split(after, sep) && c in p;
        assert p in Split(s, sep);
      }
  }

  lemma NoColonInV4(addr: string)
    requires IsV4Address(addr)
    ensures ':' !in addr
  {
    if ':' in addr { SplitCovers(addr, '.', ':'); }
  }

  lemma WholeNetworks()
    ensures SmallNumber("32", 2, 32) && SmallNumber("128", 3, 128) && Value("32") == 32 && Value("128") == 128
    ensures '/' !in "32" && '/' !in "128"
  {
    assert "32"[..1] == "3" && "3"[..0] == "" && Value("3") == 3;
    assert "128"[..2] == "12" && "12"[..1] == "1" && "1"[..0] == "" && Value("1") == 1 && Value("12") == 12;
  }

  lemma BareV4(s: string)
    requires IsV4Cidr(s) && '/' !in s
    ensures ':' !in s
    ensures IsV4Cidr(s + "/32")
  {
    assert Split(s, '/') == [s];
    NoColonInV4(s);
    WholeNetworks();
    assert s + "/32" == s + ['/'] + "32";
    SplitTwo(s, "32", '/');
  }

  lemma BareV6(s: string)
    requires IsV6Cidr(s) && '/' !in s
    ensures ':' in s
    ensures IsV6Cidr(s + "/128")
  {
    assert Split(s, '/') == [s];
    WholeNetworks();
    assert s + "/128" == s + ['/'] + "128";
    SplitTwo(s, "128", '/');
  }

  lemma Appended(s: string, rest: string)
    requires s != "" && rest != "" && Tidy(s) == s && !JsSpace(rest[|rest| - 1])
    ensures Tidy(s + rest) == s + rest
  {
    TrimFixed(s, JsSpace);
    assert (s + rest)[0] == s[0] && (s + rest)[|s + rest| - 1] == rest[|rest| - 1];
    TrimFixed(s + rest, JsSpace);
  }

  /** Normalising keeps addresses valid, and has nothing to do the second time. */
  lemma NormalCidr(v: string)
    requires !Blank(v) && IsCidr(Tidy(v))
    ensures var n := NormalizeCidr(v); !Blank(n) && Tidy(n) == n && IsCidr(n) && NormalizeCidr(n) == n
  {
    TidyTwice(v);
    if '/' !in Tidy(v) { BareCidr(Tidy(v)); }
  }

  lemma BareCidr(s: string)
    requires s != "" && Tidy(s) == s && IsCidr(s) && '/' !in s
    ensures var n := s + if ':' in s then "/128" else "/32"; n != "" && Tidy(n) == n && IsCidr(n) && '/' in n
  {
    var rest := if ':' in s then "/128" else "/32";
    assert rest[0] == '/' && (s + rest)[|s|] == '/' && !JsSpace(rest[|rest| - 1]);
    Appended(s, rest);
    if IsV4Cidr(s) { BareV4(s); } else { BareV6(s); }
  }

  lemma ShortDecimal(n: nat)
    ensures n < 100 ==> |Decimal(n)| <= 2
    ensures n < 1000 ==> |Decimal(n)| <= 3
  {
    assert n < 10 ==> |Decimal(n)| == 1;
    assert n < 100 ==> |Decimal(n / 10)| == 1;
    assert n < 1000 ==> |Decimal(n / 10 / 10)| == 1;
  }

  ghost predicate WritesUpTo(s: string, bound: nat) { exists n: nat :: n <= bound && s == Decimal(n) }

  /** The numbers meant are those from 0 to the bound, in decimal. */
  lemma SmallNumberExactly(s: string, digits: nat, bound: nat)
    requires (digits, bound) in {(2, 32), (3, 255), (3, 128)}
    ensures SmallNumber(s, digits, bound) <==> WritesUpTo(s, bound)
  {
    if SmallNumber(s, digits, bound) { DecimalOfValue(s); }
    if n: nat :| n <= bound && s == Decimal(n) {
      DecimalCanonical(n);
      ShortDecimal(n);
    }
  }

  ghost predicate IsOctet(s: string) { WritesUpTo(s, 255) }

  lemma OctetExactly(o: string)
    ensures SmallNumber(o, 3, 255) <==> IsOctet(o)
    ensures IsOctet(o) ==> '.' !in o && '/' !in o
  {
    SmallNumberExactly(o, 3, 255);
  }

  ghost predicate AreOctets(a: string, b: string, c: string, d: string) {
    IsOctet(a) && IsOctet(b) && IsOctet(c) && IsOctet(d)
  }

  function Dotted(a: string, b: string, c: string, d: string): string { a + "." + b + "." + c + "." + d }

  lemma OctetsOf(addr: string) returns (a: string, b: string, c: string, d: string)
    requires IsV4Address(addr)
    ensures AreOctets(a, b, c, d) && addr == Dotted(a, b, c, d)
  {
    var o := Split(addr, '.');
    a, b, c, d := o[0], o[1], o[2], o[3];
    assert a in o && b in o && c in o && d in o && o == [a, b, c, d];
    OctetExactly(a);
    OctetExactly(b);
    OctetExactly(c);
    OctetExactly(d);
    JoinSplit(addr, '.');
    FourJoined(a, b, c, d);
  }

  lemma OctetsMake(a: string, b: string, c: string, d: string)
    requires AreOctets(a, b, c, d)
    ensures IsV4Address(Dotted(a, b, c, d))
  {
    var o := [a, b, c, d];
    forall x | x in o ensures SmallNumber(x, 3, 255) && '.' !in x { OctetExactly(x); }
    FourJoined(a, b, c, d);
    SplitJoin(o, '.');
  }

  /** An IPv4 address is four numbers up to 255 with dots between them. */
  lemma V4Exactly(addr: string)
    ensures IsV4Address(addr) <==> exists a, b, c, d :: AreOctets(a, b, c, d) && addr == Dotted(a, b, c, d)
  {
    if IsV4Address(addr) { var a, b, c, d := OctetsOf(addr); }
    if a, b, c, d :| AreOctets(a, b, c, d) && addr == Dotted(a, b, c, d) { OctetsMake(a, b, c, d); }
  }

  lemma FourJoined(a: string, b: string, c: string, d: string)
    ensures Join([a, b, c, d], '.') == Dotted(a, b, c, d)
  {
    assert [a, b, c, d][1..] == [b, c, d] && [b, c, d][1..] == [c, d] && [c, d][1..] == [d];
    assert Join([d], '.') == d && Join([c, d], '.') == c + ['.'] + d;
    assert Join([b, c, d], '.') == b + ['.'] + (c + ['.'] + d);
    assert Join([a, b, c, d], '.') == a + ['.'] + (b + ['.'] + (c + ['.'] + d));
  }

  /** An IPv4 block is an address, alone or with a prefix up to 32. */
  lemma V4CidrExactly(v: string)
    ensures IsV4Cidr(v) <==> IsV4Address(v) || exists addr, prefix :: IsV4Block(addr, prefix) && v == addr + "/" + prefix
  {
    if IsV4Cidr(v) && !IsV4Address(v) { var addr, prefix := BlockOf(v); }
    if IsV4Address(v) {
      NoSlashInV4(v);
      assert Split(v, '/') == [v];
    }
    if addr, prefix :| IsV4Block(addr, prefix) && v == addr + "/" + prefix { BlockMakes(addr, prefix); }
  }

  ghost predicate IsV4Block(addr: string, prefix: string) { IsV4Address(addr) && WritesUpTo(prefix, 32) }

  lemma BlockOf(v: string) returns (addr: string, prefix: string)
    requires IsV4Cidr(v) && !IsV4Address(v)
    ensures IsV4Block(addr, prefix) && v == addr + "/" + prefix
  {
    var parts := Split(v, '/');
    JoinSplit(v, '/');
    addr, prefix := parts[0], parts[1];
    SmallNumberExactly(prefix, 2, 32);
    assert parts == [addr, prefix] && parts[1..] == [prefix];
  }

  lemma BlockMakes(addr: string, prefix: string)
    requires IsV4Block(addr, prefix)
    ensures IsV4Cidr(addr + "/" + prefix)
  {
    NoSlashInV4(addr);
    SmallNumberExactly(prefix, 2, 32);
    assert '/' !in prefix && addr + "/" + prefix == addr + ['/'] + prefix;
    SplitTwo(addr, prefix, '/');
  }

  lemma NoSlashInV4(addr: string)
    requires IsV4Address(addr)
    ensures '/' !in addr
  {
    if '/' in addr { SplitCovers(addr, '.', '/'); }
  }

  lemma CutWhole(s: string, width: string)
    requires '/' !in s
    ensures Cut(s + "/" + width, '/') == Some((s, width))
  {
    FindAfter(s, width, '/');
    assert s + "/" + width == s + ['/'] + width;
    assert (s + "/" + width)[..|s|] == s && (s + "/" + width)[|s| + 1..] == width;
  }

  /** A network as typed is only trimmed; an address becomes the network of that address
      alone: its text, and as prefix the full width of its kind. */
  lemma NormalizedExactly(v: string)
    requires IsCidr(Tidy(v))
    ensures '/' in Tidy(v) ==> NormalizeCidr(v) == Tidy(v)
    ensures '/' !in Tidy(v) ==>
      match Cut(NormalizeCidr(v), '/')
      case None => false
      case Some((addr, width)) =>
        && addr == Tidy(v) && AllDigits(width)
        && (IsV4Address(addr) ==> Value(width) == 32) && (!IsV4Address(addr) ==> IsV6Address(addr) && Value(width) == 128)
  {
    var s := Tidy(v);
    if '/' !in s {
      assert Split(s, '/') == [s];
      WholeNetworks();
      if IsV4Address(s) {
        NoColonInV4(s);
        assert s + "/32" == s + "/" + "32";
        CutWhole(s, "32");
      } else {
        assert s + "/128" == s + "/" + "128";
        CutWhole(s, "128");
      }
    }
  }

  // ------------------------------------------------------------------ validity

  predicate LowerOrDigit(c: char) { 'a' <= c <= 'z' || IsDigit(c) }

  /** Lower-case letters, digits and dashes, a dash at neither end. */
  predicate IsDnsName(s: string) {
    s != "" && LowerOrDigit(s[0]) && LowerOrDigit(s[|s| - 1]) && forall c :: c in s ==> LowerOrDigit(c) || c == '-'
  }

  predicate IsWordOrStar(c: char) { LowerOrDigit(c) || 'A' <= c <= 'Z' || c == '_' || c == '*' }

  predicate IsFqdn(s: string) {
    s != "" && IsWordOrStar(s[0]) && forall c :: c in s ==> IsWordOrStar(c) || c == '-' || c == '.'
  }

  predicate ValidPeer(r: Rule, ingress: bool, mode: Mode) {
    match r.kind
    case EntityPeer => r.entity in ENTITIES
    case CidrPeer => !Blank(r.cidr) && IsCidr(Tidy(r.cidr))
    case FqdnPeer => !ingress && mode.Whitelist? && IsFqdn(Tidy(r.fqdn))
    case LabelPeer => PeerLabels(r) != map[] && RowsFilled(r.labels)
  }

  predicate InPortRange(port: string) { AllDigits(port) && 1 <= Value(port) <= 65535 }

  predicate ValidPort(p: PortEntry) { InPortRange(Tidy(p.port)) && p.protocol in PROTOCOLS }

  predicate SaysSomething(h: HttpRule) { h.verb != "" || !Blank(h.path) }

  predicate HasPort(p: PortEntry) { !Blank(p.port) }

  predicate ValidRule(r: Rule, ingress: bool, mode: Mode) {
    && ValidPeer(r, ingress, mode)
    && (forall p :: p in r.ports ==> ValidPort(p))
    && (forall h :: h in r.http ==> SaysSomething(h))
    && (r.http != [] ==> mode.Whitelist? && Filtered(r.ports, HasPort) != [])
  }

  predicate ValidSection(s: Section, ingress: bool) {
    forall r :: r in s.rules ==> ValidRule(r, ingress, s.mode)
  }

  predicate Valid(form: Form) {
    && IsDnsName(Tidy(form.name))
    && (form.scope.Namespaced? ==> !Blank(form.namespace))
    && SubjectLabels(form) != map[]
    && RowsFilled(form.subject)
    && form.ingress.rules + form.egress.rules != []
    && ValidSection(form.ingress, true)
    && ValidSection(form.egress, false)
  }

  // ------------------------------------------------------- what the fields may hold

  predicate Alphanumeric(c: char, upper: bool) {
    48 <= c as int <= 57 || 97 <= c as int <= 122 || (upper && 65 <= c as int <= 90)
  }

  lemma EveryChar(s: string, p: char -> bool)
    ensures (forall c :: c in s ==> p(c)) <==> forall i :: 0 <= i < |s| ==> p(s[i])
  {
    if forall i :: 0 <= i < |s| ==> p(s[i]) {
      forall c | c in s ensures p(c) {
        var i :| 0 <= i < |s| && s[i] == c;
      }
    }
  }

  /** A name: lower-case letters, digits and dashes, no dash at either end. */
  lemma DnsNameExactly(s: string)
    ensures IsDnsName(s)
       <==> s != "" && s[0] != '-' && s[|s| - 1] != '-' && forall i :: 0 <= i < |s| ==> Alphanumeric(s[i], false) || s[i] == '-'
  {
    EveryChar(s, c => LowerOrDigit(c) || c == '-');
    assert forall c: char :: LowerOrDigit(c) <==> Alphanumeric(c, false);
  }

  /** A domain: letters, digits, underscores, wildcards, dashes and dots, not starting with
      a dash or a dot. */
  lemma FqdnExactly(s: string)
    ensures IsFqdn(s)
       <==> s != "" && s[0] !in {'-', '.'} && forall i :: 0 <= i < |s| ==> Alphanumeric(s[i], true) || s[i] in {'_', '*', '-', '.'}
  {
    EveryChar(s, c => IsWordOrStar(c) || c == '-' || c == '.');
    assert forall c: char :: IsWordOrStar(c) <==> Alphanumeric(c, true) || c == '_' || c == '*';
  }

  lemma {:induction false} LeadingZero(s: string)
    requires AllDigits(s)
    ensures Value("0" + s) == Value(s)
  {
    var init, last := s[..|s| - 1], s[|s| - 1];
    assert ("0" + s)[..|"0" + s| - 1] == "0" + init && ("0" + s)[|"0" + s| - 1] == last;
    if init != "" {
      LeadingZero(init);
    } else {
      assert "0" + init == "0" && Value("0") == 0 by { assert "0"[..0] == ""; }
    }
  }

  /** A port: a number from 1 to 65535, zeros in front ignored. */
  lemma PortExactly(port: string)
    ensures NoLeadingZero(port) ==> (InPortRange(port) <==> exists n: nat :: 1 <= n <= 65535 && port == Decimal(n))
    ensures AllDigits(port) ==> (InPortRange("0" + port) <==> InPortRange(port))
    ensures !AllDigits(port) ==> !InPortRange(port)
  {
    if NoLeadingZero(port) { DecimalOfValue(port); }
    if AllDigits(port) { LeadingZero(port); }
    if n: nat :| 1 <= n <= 65535 && port == Decimal(n) { assert Value(port) == n; }
  }

  /** The entities and protocols Cilium knows. */
  lemma KnownExactly(s: string)
    ensures s in ENTITIES <==> s in {"all", "world", "cluster", "host", "remote-node", "init", "health", "unmanaged"}
    ensures s in PROTOCOLS <==> s in {"UDP", "TCP", "SCTP"}
  {
    assert ENTITIES[0] == "world" && ENTITIES[1] == "cluster" && ENTITIES[2] == "host" && ENTITIES[3] == "remote-node";
    assert ENTITIES[4] == "all" && ENTITIES[5] == "init" && ENTITIES[6] == "health" && ENTITIES[7] == "unmanaged";
    assert PROTOCOLS[0] == "TCP" && PROTOCOLS[1] == "UDP" && PROTOCOLS[2] == "SCTP";
  }

  /** Five characters on end without the separator. */
  ghost predicate RunAt(s: string, c: char, i: int) { 0 <= i <= |s| - 5 && c !in s[i..i + 5] }

  ghost predicate LongRun(s: string, c: char) { exists i :: RunAt(s, c, i) }

  lemma RunAfter(before: string, after: string, c: char, i: int)
    requires RunAt(after, c, i)
    ensures RunAt(before + [c] + after, c, |before| + 1 + i)
  {
    var s, n := before + [c] + after, |before| + 1;
    assert s[n + i..n + i + 5] == after[i..i + 5];
  }

  lemma SeparatorInside(before: string, after: string, c: char, i: nat)
    requires i <= |before| < i + 5 <= |before| + 1 + |after|
    ensures c in (before + [c] + after)[i..i + 5]
  {
    assert (before + [c] + after)[i..i + 5][|before| - i] == c;
  }

  lemma RunWhere(before: string, after: string, c: char, i: int)
    requires RunAt(before + [c] + after, c, i)
    ensures i + 5 <= |before| || RunAt(after, c, i - |before| - 1)
  {
    var s, n := before + [c] + after, |before| + 1;
    if i <= |before| {
      if i + 5 > |before| { SeparatorInside(before, after, c, i); }
    } else {
      assert s[i..i + 5] == after[i - n..i - n + 5];
    }
  }

  lemma RunBefore(before: string, rest: string, c: char)
    requires c !in before && |before| > 4
    ensures RunAt(before + rest, c, 0)
  {
    assert (before + rest)[0..5] == before[..5];
  }

  lemma RunInFirst(before: string, after: string, c: char)
    requires c !in before
    ensures LongRun(before + [c] + after, c) <==> |before| > 4 || LongRun(after, c)
  {
    if |before| > 4 {
      RunBefore(before, [c] + after, c);
      assert before + ([c] + after) == before + [c] + after;
    }
    if i :| RunAt(after, c, i) { RunAfter(before, after, c, i); }
    if i :| RunAt(before + [c] + after, c, i) { RunWhere(before, after, c, i); }
  }

  ghost predicate AllShort(pieces: seq<string>) { forall g :: g in pieces ==> |g| <= 4 }

  lemma {:induction false} PiecesShort(s: string, c: char)
    ensures AllShort(Split(s, c)) <==> !LongRun(s, c)
    decreases |s|
  {
    match Cut(s, c)
    case None =>
      assert AllShort([s]) <==> |s| <= 4;
      if |s| > 4 { assert RunAt(s, c, 0); }
    case Some((before, after)) =>
      PiecesShort(after, c);
      RunInFirst(before, after, c);
      assert AllShort([before] + Split(after, c)) <==> |before| <= 4 && AllShort(Split(after, c)) by {
        assert forall g :: g in [before] + Split(after, c) <==> g == before || g in Split(after, c);
      }
  }

  ghost predicate ColonsMeet(addr: string, i: int) { 0 <= i <= |addr| - 2 && addr[i..i + 2] == "::" }

  lemma MeetExactly(addr: string, i: nat)
    ensures PairAt(addr, i) <==> ColonsMeet(addr, i)
  {
    if i + 1 < |addr| { assert addr[i..i + 2] == [addr[i], addr[i + 1]]; }
  }

  predicate HexOrColon(c: char) { 48 <= c as int <= 58 || 65 <= c as int <= 70 || 97 <= c as int <= 102 }

  /** An IPv6 address, as far as it is looked into: hexadecimal digits and colons, some
      colon, no group of five digits, and one place at most where two colons meet. */
  lemma V6Exactly(addr: string)
    ensures IsV6Address(addr)
       <==> && (forall i :: 0 <= i < |addr| ==> HexOrColon(addr[i]))
            && ':' in addr && !LongRun(addr, ':')
            && forall i, j :: ColonsMeet(addr, i) && ColonsMeet(addr, j) ==> i == j
  {
    PiecesShort(addr, ':');
    EveryChar(addr, IsHexOrColon);
    assert forall c: char :: IsHexOrColon(c) <==> HexOrColon(c);
    forall i: nat ensures PairAt(addr, i) <==> ColonsMeet(addr, i) { MeetExactly(addr, i); }
  }

  // --------------------------------------------------------------- normal forms

  function TidyPort(p: PortEntry): PortEntry { PortEntry(Tidy(p.port), p.protocol) }

  function TidyHttp(h: HttpRule): HttpRule { HttpRule(h.verb, Tidy(h.path)) }

  function TidyPorts(ports: seq<PortEntry>): seq<PortEntry> { Each(Filtered(ports, HasPort), TidyPort) }

  function TidyHttps(http: seq<HttpRule>): seq<HttpRule> { Each(Filtered(http, SaysSomething), TidyHttp) }

  /** The peer in normal form: the fields of its own kind tidied, the others blank. */
  function NormalPeer(r: Rule, order: Order): Rule
    requires Lists(order)
  {
    match r.kind
    case EntityPeer => EMPTY_RULE.(kind := EntityPeer, entity := r.entity)
    case CidrPeer => EMPTY_RULE.(kind := CidrPeer, cidr := NormalizeCidr(r.cidr))
    case FqdnPeer => EMPTY_RULE.(kind := FqdnPeer, fqdn := Tidy(r.fqdn))
    case LabelPeer =>
      var m := PeerLabels(r);
      EMPTY_RULE.(labels := ToLabelPairs(Unlifted(m), order), namespace := Lifted(m))
  }

  function NormalRule(r: Rule, order: Order): Rule
    requires Lists(order)
  {
    NormalPeer(r, order).(ports := TidyPorts(r.ports), http := TidyHttps(r.http))
  }

  function NormalRules(rules: seq<Rule>, ingress: bool, orders: Orders): (n: seq<Rule>)
    requires AllList(orders)
    ensures |n| == |rules|
    ensures forall i :: 0 <= i < |rules| ==> n[i] == NormalRule(rules[i], orders(Peer(ingress, i)))
  {
    seq(|rules|, i requires 0 <= i < |rules| => NormalRule(rules[i], orders(Peer(ingress, i))))
  }

  function NormalSection(s: Section, ingress: bool, orders: Orders): Section
    requires AllList(orders)
  {
    if s.rules == [] then EMPTY_SECTION else Section(s.mode, NormalRules(s.rules, ingress, orders))
  }

  /** Everything trimmed, blank rows dropped, addresses in CIDR notation, the namespace
      label in its own field, unused fields and sections reset. */
  function Normal(form: Form, orders: Orders): Form
    requires AllList(orders)
  {
    var m := SubjectLabels(form);
    Form(Tidy(form.name), form.scope, if form.scope.ClusterWide? then "" else Tidy(form.namespace), Tidy(form.comment),
         ToLabelPairs(Unlifted(m), orders(Subject)), Lifted(m),
         NormalSection(form.ingress, true, orders), NormalSection(form.egress, false, orders))
  }
}
