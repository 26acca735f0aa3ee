/** String operations of Go's `strings` package and of JavaScript strings, as far
    as the modelled code uses them. */
module Text {
  import opened Wrappers

  // ---------------------------------------------------------------- prefixes

  predicate HasSuffix(s: string, suffix: string) {
    |suffix| <= |s| && s[|s| - |suffix|..] == suffix
  }

  predicate Contains(s: string, part: string) {
    exists i :: 0 <= i <= |s| && part <= s[i..]
  }

  /** Two suffixes of one string are suffixes of each other. */
  lemma SuffixesNest(s: string, a: string, b: string)
    requires HasSuffix(s, a) && HasSuffix(s, b) && |a| <= |b|
    ensures HasSuffix(b, a)
  {
    assert b[|b| - |a|..] == s[|s| - |a|..];
  }

  lemma SuffixTransitive(s: string, b: string, a: string)
    requires HasSuffix(s, b) && HasSuffix(b, a)
    ensures HasSuffix(s, a)
  {
    assert s[|s| - |a|..] == b[|b| - |a|..];
  }

  // ---------------------------------------------------------------- trimming

  /** White space as Go's unicode.IsSpace knows it. */
  predicate GoSpace(c: char) {
    || '\t' <= c <= '\r' || c == ' ' || c == '\U{85}' || c == '\U{A0}' || c == '\U{1680}'
    || '\U{2000}' <= c <= '\U{200A}' || c == '\U{2028}' || c == '\U{2029}'
    || c == '\U{202F}' || c == '\U{205F}' || c == '\U{3000}'
  }

  /** White space as String.prototype.trim knows it: the byte order mark, not the
      next-line character. */
  predicate JsSpace(c: char) {
    (GoSpace(c) && c != '\U{85}') || c == '\U{FEFF}'
  }

  /** The characters by number. */
  lemma SpaceExactly(c: char)
    ensures GoSpace(c)
       <==> var n := c as int;
            || 9 <= n <= 13 || n in {32, 0x85, 0xA0, 0x1680, 0x2028, 0x2029, 0x202F, 0x205F, 0x3000} || 0x2000 <= n <= 0x200A
    ensures JsSpace(c) <==> c as int == 0xFEFF || (GoSpace(c) && c as int != 0x85)
  {
  }

  function TrimStart(s: string, space: char -> bool): (r: string) {
    if s != "" && space(s[0]) then TrimStart(s[1..], space) else s
  }

  function TrimEnd(s: string, space: char -> bool): (r: string) {
    if s != "" && space(s[|s| - 1]) then TrimEnd(s[..|s| - 1], space) else s
  }

  function Trim(s: string, space: char -> bool): (r: string) {
    TrimEnd(TrimStart(s, space), space)
  }

  predicate Trimmed(s: string, space: char -> bool) {
    s != "" ==> !space(s[0]) && !space(s[|s| - 1])
  }

  lemma TrimEndKeepsStart(s: string, space: char -> bool)
    ensures TrimEnd(s, space) <= s
    ensures TrimEnd(s, space) != "" ==> !space(TrimEnd(s, space)[|TrimEnd(s, space)| - 1])
  {
  }

  lemma TrimStartDone(s: string, space: char -> bool)
    ensures TrimStart(s, space) != "" ==> !space(TrimStart(s, space)[0])
  {
  }

  lemma TrimIsTrimmed(s: string, space: char -> bool)
    ensures Trimmed(Trim(s, space), space)
  {
    TrimStartDone(s, space);
    TrimEndKeepsStart(TrimStart(s, space), space);
  }

  /** Trimming changes nothing exactly when there is nothing to trim. */
  lemma TrimFixed(s: string, space: char -> bool)
    ensures Trim(s, space) == s <==> Trimmed(s, space)
  {
    TrimIsTrimmed(s, space);
  }

  lemma TrimIdempotent(s: string, space: char -> bool)
    ensures Trim(Trim(s, space), space) == Trim(s, space)
  {
    TrimIsTrimmed(s, space);
    TrimFixed(Trim(s, space), space);
  }

  lemma TrimStartCuts(s: string, space: char -> bool) returns (a: string)
    ensures s == a + TrimStart(s, space) && forall c :: c in a ==> space(c)
  {
    a := [];
    if s != "" && space(s[0]) {
      var rest := TrimStartCuts(s[1..], space);
      a := [s[0]] + rest;
    }
  }

  lemma TrimEndCuts(s: string, space: char -> bool) returns (b: string)
    ensures s == TrimEnd(s, space) + b && forall c :: c in b ==> space(c)
  {
    b := [];
    if s != "" && space(s[|s| - 1]) {
      var rest := TrimEndCuts(s[..|s| - 1], space);
      b := rest + [s[|s| - 1]];
    }
  }

  /** Trimming cuts space off both ends, and all of it. */
  lemma TrimExactly(s: string, space: char -> bool) returns (a: string, b: string)
    ensures s == a + Trim(s, space) + b && Trimmed(Trim(s, space), space)
    ensures forall c :: c in a + b ==> space(c)
  {
    TrimIsTrimmed(s, space);
    a := TrimStartCuts(s, space);
    b := TrimEndCuts(TrimStart(s, space), space);
  }

  // ------------------------------------------------------- cutting and joining

  /** The position of the first `c`, or the length when there is none. */
  function Find(s: string, c: char): (i: nat)
    ensures i <= |s|
    ensures i < |s| ==> s[i] == c
    ensures c !in s[..i]
  {
    if s == "" || s[0] == c then 0
    else
      var i := 1 + Find(s[1..], c);
      assert s[..i] == [s[0]] + s[1..][..i - 1];
      i
  }

  /** The text before and after the first `c`. */
  function Cut(s: string, c: char): (r: Option<(string, string)>)
    ensures r.None? <==> c !in s
    ensures r.Some? ==> s == r.value.0 + [c] + r.value.1 && c !in r.value.0
  {
    var i := Find(s, c);
    if i == |s| then assert s[..i] == s; None else Some((s[..i], s[i + 1..]))
  }

  /** Always at least one piece, and no piece holds the separator. */
  function Split(s: string, c: char): (r: seq<string>)
    ensures |r| > 0
    ensures forall p :: p in r ==> c !in p
    decreases |s|
  {
    match Cut(s, c)
    case None => [s]
    case Some((before, after)) => [before] + Split(after, c)
  }

  function Join(parts: seq<string>, c: char): (r: string) {
    if parts == [] then ""
    else if |parts| == 1 then parts[0]
    else parts[0] + [c] + Join(parts[1..], c)
  }

  lemma FindAfter(a: string, x: string, c: char)
    requires c !in a
    ensures Find(a + [c] + x, c) == |a|
  {
    if a != "" {
      assert (a + [c] + x)[1..] == a[1..] + [c] + x;
      FindAfter(a[1..], x, c);
    }
  }

  /** A separator-free piece and what follows it can be told apart. */
  lemma CutUnique(a: string, x: string, b: string, y: string, c: char)
    requires c !in a && c !in b
    requires a + [c] + x == b + [c] + y
    ensures a == b && x == y
  {
    var s, t := a + [c] + x, b + [c] + y;
    FindAfter(a, x, c);
    FindAfter(b, y, c);
    assert a == s[..|a|] && b == t[..|b|];
    assert x == s[|a| + 1..] && y == t[|b| + 1..];
  }

  lemma JoinSeparates(a: seq<string>, c: char)
    requires |a| > 1
    ensures c in Join(a, c)
  {
    assert Join(a, c)[|a[0]|] == c;
  }

  /** Joining separator-free pieces loses nothing, not even their number. */
  lemma {:induction false} JoinInjective(a: seq<string>, b: seq<string>, c: char)
    requires a != [] && b != []
    requires forall p :: p in a ==> c !in p
    requires forall p :: p in b ==> c !in p
    requires Join(a, c) == Join(b, c)
    ensures a == b
  {
    if |a| == 1 && |b| == 1 {
    } else if |a| == 1 || |b| == 1 {
      JoinSeparates(if |a| == 1 then b else a, c);
      assert false;
    } else {
      CutUnique(a[0], Join(a[1..], c), b[0], Join(b[1..], c), c);
      JoinInjective(a[1..], b[1..], c);
      assert a == [a[0]] + a[1..] && b == [b[0]] + b[1..];
    }
  }

  lemma {:induction false} JoinSplit(s: string, c: char)
    ensures Join(Split(s, c), c) == s
    decreases |s|
  {
    if Cut(s, c).Some? {
      var (before, after) := Cut(s, c).value;
      JoinSplit(after, c);
      var rest := Split(after, c);
      assert ([before] + rest)[1..] == rest;
    }
  }

  lemma SplitJoin(parts: seq<string>, c: char)
    requires parts != [] && forall p :: p in parts ==> c !in p
    ensures Split(Join(parts, c), c) == parts
  {
    JoinSplit(Join(parts, c), c);
    JoinInjective(Split(Join(parts, c), c), parts, c);
  }

  // ---------------------------------------------------------------- numbers

  predicate IsDigit(c: char) { '0' <= c <= '9' }

  predicate AllDigits(s: string) {
    s != "" && forall c :: c in s ==> IsDigit(c)
  }

  /** The value of a string of decimal digits. */
  function Value(s: string): (n: nat)
    requires forall c :: c in s ==> IsDigit(c)
  {
    if s == "" then 0
    else
      assert IsDigit(s[|s| - 1]);
      10 * Value(s[..|s| - 1]) + (s[|s| - 1] as int - '0' as int)
  }

  function Decimal(n: nat): (s: string)
    ensures AllDigits(s)
    ensures Value(s) == n
  {
    var last := [(n % 10 + '0' as int) as char];
    if n < 10 then last
    else
      var s := Decimal(n / 10) + last;
      assert s[..|s| - 1] == Decimal(n / 10);
      s
  }

  /** As Decimal writes numbers: no zero in front. */
  predicate NoLeadingZero(s: string) { AllDigits(s) && (s[0] == '0' ==> |s| == 1) }

  lemma {:induction false} ValuePositive(s: string)
    requires AllDigits(s) && s[0] != '0'
    ensures Value(s) > 0
  {
    var init := s[..|s| - 1];
    assert IsDigit(s[|s| - 1]) && IsDigit(s[0]);
    if init != "" {
      assert init[0] == s[0];
      ValuePositive(init);
    }
  }

  lemma {:induction false} DecimalOfValue(s: string)
    requires NoLeadingZero(s)
    ensures Decimal(Value(s)) == s
  {
    var init, last := s[..|s| - 1], s[|s| - 1];
    assert s == init + [last] && IsDigit(last);
    if init == "" {
      assert Value(init) == 0;
    } else {
      ValuePositive(init);
      DecimalOfValue(init);
    }
  }

  lemma {:induction false} DecimalCanonical(n: nat)
    ensures NoLeadingZero(Decimal(n)) && (n > 0 ==> Decimal(n)[0] != '0')
  {
    if n >= 10 { DecimalCanonical(n / 10); }
  }

  const MAX_INT64: int := 0x7FFF_FFFF_FFFF_FFFF

  /** strconv.ParseInt(s, 10, 64), and strconv.Atoi on a 64-bit platform: an
      optional sign, digits, and a value that fits. */
  function ParseInt64(s: string): (r: Option<int>)
    ensures r.Some? ==> -MAX_INT64 - 1 <= r.value <= MAX_INT64
  {
    if s == "" then None
    else
      var signed := s[0] == '+' || s[0] == '-';
      var digits := if signed then s[1..] else s;
      if !AllDigits(digits) then None
      else
        var n: int := Value(digits);
        if s[0] == '-' then (if n <= MAX_INT64 + 1 then Some(-n) else None)
        else (if n <= MAX_INT64 then Some(n) else None)
  }

  /** What the text of a number is: digits, with a sign or without, and a value that fits
      64 bits; everything else is none. */
  lemma ParseInt64Exactly(s: string, n: int)
    ensures ParseInt64(s) == Some(n)
       <==> && -0x8000_0000_0000_0000 <= n <= 0x7FFF_FFFF_FFFF_FFFF
            && exists d :: AllDigits(d) && ((s in {d, "+" + d} && n == Value(d)) || (s == "-" + d && n + Value(d) == 0))
  {
    if s != "" && s[0] in {'+', '-'} {
      var d := s[1..];
      assert s == [s[0]] + d;
      assert "+" + d == ['+'] + d && "-" + d == ['-'] + d;
    }
    if d :| AllDigits(d) && ((s in {d, "+" + d} && n == Value(d)) || (s == "-" + d && n + Value(d) == 0)) {
      assert IsDigit(d[0]);
      assert ("+" + d)[1..] == d && ("-" + d)[1..] == d;
    }
  }
}
