/** Reading a tracing policy back into the form (web/src/utils/yamlToForm.ts). A
    document is the parsed YAML as far as the reader looks at it; the reader takes only
    what the form can show in full. Whatever the builder built is proved to reopen, and
    to build again into the same triggers. */
module PolicyReader {
  import opened Wrappers
  import opened Text
  import opened TracingPolicy
  import opened PolicyBuilder

  /** A selector as the document has it: which unsupported matchers are present, and how
      many keys each action carries. */
  datatype DocSelector = DocSelector(unsupported: bool, matchBinaries: seq<BinarySelector>,
                                     matchArgs: seq<ArgSelector>, actionKeys: seq<nat>)

  /** A kprobe: its `return` value if there is one, and whether `returnArg`, `message` or
      `tags` is present. */
  datatype DocKProbe = DocKProbe(call: string, ret: Option<bool>, returnArg: bool, message: bool, tags: bool,
                                 selectors: seq<DocSelector>)

  datatype Doc = Doc(name: string, namespace: string, matchLabels: map<string, string>, kprobes: seq<DocKProbe>)

  const PROCESS_OPERATORS: seq<string> := ["Equal", "NotEqual", "Postfix", "NotPostfix"]
  const FILE_OPERATORS: seq<string> := ["Prefix", "NotPrefix"]

  predicate SelectorRepresentable(sel: DocSelector, argOperators: seq<string>) {
    && !sel.unsupported
    && |sel.actionKeys| <= 1
    && (forall n :: n in sel.actionKeys ==> n <= 1)
    && (forall mb :: mb in sel.matchBinaries ==> mb.operator == "NotIn")
    && (forall ma :: ma in sel.matchArgs && ma.index == 0 ==> ma.operator in argOperators)
  }

  /** A `return: false` is the cluster's default and loses nothing. */
  predicate Representable(kp: DocKProbe, argOperators: seq<string>) {
    && kp.ret != Some(true) && !kp.returnArg && !kp.message && !kp.tags
    && forall sel :: sel in kp.selectors ==> SelectorRepresentable(sel, argOperators)
  }

  // ------------------------------------------------------------ what is read so far

  datatype Reading = Reading(processMode: string, modeSeen: Option<string>, process: seq<seq<string>>,
                             fileMode: string, file: seq<FileRule>)

  const NOTHING_READ := Reading("whitelist", None, [], "", [])

  function Rooted(bin: string): string { if "/" <= bin then bin else "/" + bin }

  /** One process rule per value that is not empty. */
  function BinaryRules(values: seq<string>): seq<seq<string>> {
    if values == [] then []
    else
      var r, bin := BinaryRules(values[..|values| - 1]), values[|values| - 1];
      if bin == "" then r else r + [[Rooted(bin)]]
  }

  function LegacyRules(mbs: seq<BinarySelector>): seq<seq<string>> {
    if mbs == [] then [] else LegacyRules(mbs[..|mbs| - 1]) + BinaryRules(mbs[|mbs| - 1].values)
  }

  function ModeOf(operator: string): Option<string> {
    if operator == "NotEqual" || operator == "NotPostfix" then Some("whitelist")
    else if operator == "Equal" || operator == "Postfix" then Some("blacklist")
    else None
  }

  /** An execve selector: at most one argument, index 0, in one mode throughout. */
  function ReadProcess(r: Reading, sel: DocSelector): Option<Reading> {
    if (exists a :: a in sel.matchArgs && a.index != 0) || |sel.matchArgs| > 1 then None
    else if sel.matchArgs == [] then Some(r.(process := r.process + LegacyRules(sel.matchBinaries)))
    else
      var ma := sel.matchArgs[0];
      match ModeOf(ma.operator)
      case None => Some(r.(process := r.process + BinaryRules(ma.values)))
      case Some(mode) =>
        if r.modeSeen.Some? && r.modeSeen != Some(mode) then None
        else Some(r.(processMode := mode, modeSeen := Some(mode), process := r.process + BinaryRules(ma.values)))
  }

  function FlatValues(mbs: seq<BinarySelector>): seq<string> {
    if mbs == [] then [] else FlatValues(mbs[..|mbs| - 1]) + mbs[|mbs| - 1].values
  }

  /** The permission the index-1 arguments say: at most one, Equal to 4 or 2. */
  function ReadPermission(args: seq<ArgSelector>): Option<string> {
    if args == [] then Some("all")
    else
      match ReadPermission(args[..|args| - 1])
      case None => None
      case Some(perm) =>
        var ma := args[|args| - 1];
        if ma.index == 0 then Some(perm)
        else if ma.index != 1 || ma.operator != "Equal" then None
        else if ma.values != ["4"] && ma.values != ["2"] then None
        else if perm != "all" then None
        else Some(if ma.values == ["4"] then "read" else "write")
  }

  function PathArgs(args: seq<ArgSelector>): seq<ArgSelector> {
    if args == [] then []
    else
      var r, ma := PathArgs(args[..|args| - 1]), args[|args| - 1];
      if ma.index == 0 then r + [ma] else r
  }

  /** Whitelists come back as one rule, blacklists as one rule per path. */
  function PathRules(mode: string, paths: seq<string>, bins: seq<string>, perm: string): seq<FileRule> {
    var extra := FileRule(paths, bins, if perm == "all" then "" else perm);
    if mode == "whitelist" then [extra] else OnePathRules(paths, extra)
  }

  function ReadFile(r: Reading, sel: DocSelector): Option<Reading> {
    match ReadPermission(sel.matchArgs)
    case None => None
    case Some(perm) =>
      var pathArgs := PathArgs(sel.matchArgs);
      if |pathArgs| > 1 then None
      else if pathArgs == [] then Some(r)
      else
        var ma := pathArgs[0];
        var mode := if ma.operator == "NotPrefix" then "whitelist" else if ma.operator == "Prefix" then "blacklist" else "";
        if mode == "" then Some(r)
        else if r.fileMode != "" && r.fileMode != mode then None
        else
          var paths := NonEmpty(ma.values);
          if paths == [] then Some(r.(fileMode := mode))
          else Some(r.(fileMode := mode, file := r.file + PathRules(mode, paths, NonEmpty(FlatValues(sel.matchBinaries)), perm)))
  }

  function ReadSelectors(r: Reading, sels: seq<DocSelector>, file: bool): Option<Reading> {
    if sels == [] then Some(r)
    else
      match ReadSelectors(r, sels[..|sels| - 1], file)
      case None => None
      case Some(r') => if file then ReadFile(r', sels[|sels| - 1]) else ReadProcess(r', sels[|sels| - 1])
  }

  const FILE_CALLS: set<string> := {FILE_PERMISSION, "sys_read", "sys_write", "sys_openat"}

  /** A kprobe has to be one the form knows, in full, and to contribute something. */
  function ReadKProbe(r: Reading, kp: DocKProbe): Option<Reading> {
    var read :=
      if Contains(kp.call, EXECVE) then
        if Representable(kp, PROCESS_OPERATORS) then ReadSelectors(r, kp.selectors, false) else None
      else if kp.call in FILE_CALLS then
        if Representable(kp, FILE_OPERATORS) then ReadSelectors(r, kp.selectors, true) else None
      else None;
    match read
    case None => None
    case Some(r') => if |r'.process| + |r'.file| == |r.process| + |r.file| then None else Some(r')
  }

  function ReadKProbes(kps: seq<DocKProbe>): Option<Reading> {
    if kps == [] then Some(NOTHING_READ)
    else
      match ReadKProbes(kps[..|kps| - 1])
      case None => None
      case Some(r) => ReadKProbe(r, kps[|kps| - 1])
  }

  function YamlToForm(doc: Doc): Option<Form> {
    if doc.name == "" then None
    else
      match ReadKProbes(doc.kprobes)
      case None => None
      case Some(r) =>
        Some(Form(doc.name, doc.namespace, doc.matchLabels, r.processMode, r.process, r.fileMode, r.file, [], []))
  }

  lemma {:induction false} SelectorsRefused(r: Reading, sels: seq<DocSelector>, i: nat, file: bool)
    requires i <= |sels| && ReadSelectors(r, sels[..i], file).None?
    ensures ReadSelectors(r, sels, file).None?
    decreases |sels|
  {
    if i < |sels| {
      assert sels[..|sels| - 1][..i] == sels[..i];
      SelectorsRefused(r, sels[..|sels| - 1], i, file);
    } else {
      assert sels[..i] == sels;
    }
  }

  lemma {:induction false} KProbesRefused(kps: seq<DocKProbe>, i: nat)
    requires i <= |kps| && ReadKProbes(kps[..i]).None?
    ensures ReadKProbes(kps).None?
    decreases |kps|
  {
    if i < |kps| {
      assert kps[..|kps| - 1][..i] == kps[..i];
      KProbesRefused(kps[..|kps| - 1], i);
    } else {
      assert kps[..i] == kps;
    }
  }

  /** The loop over one kprobe's selectors. */
  method ReadAll(r: Reading, sels: seq<DocSelector>, file: bool) returns (out: Option<Reading>)
    ensures out == ReadSelectors(r, sels, file)
  {
    var reading := r;
    for i := 0 to |sels|
      invariant ReadSelectors(r, sels[..i], file) == Some(reading)
    {
      assert sels[..i + 1][..i] == sels[..i];
      var next := if file then ReadFile(reading, sels[i]) else ReadProcess(reading, sels[i]);
      if next.None? { SelectorsRefused(r, sels, i + 1, file); return None; }
      reading := next.value;
    }
    assert sels[..|sels|] == sels;
    return Some(reading);
  }

  method ReadProbe(r: Reading, kp: DocKProbe) returns (out: Option<Reading>)
    ensures out == ReadKProbe(r, kp)
  {
    var file := !Contains(kp.call, EXECVE);
    if file && kp.call !in FILE_CALLS { return None; }
    if !Representable(kp, if file then FILE_OPERATORS else PROCESS_OPERATORS) { return None; }
    var next := ReadAll(r, kp.selectors, file);
    if next.None? || |next.value.process| + |next.value.file| == |r.process| + |r.file| { return None; }
    return next;
  }

  lemma OneMoreKProbe(kps: seq<DocKProbe>, i: nat)
    requires i < |kps|
    ensures ReadKProbes(kps[..i + 1])
         == match ReadKProbes(kps[..i]) case None => None case Some(r) => ReadKProbe(r, kps[i])
  {
    assert kps[..i + 1][..i] == kps[..i];
  }

  /** yamlToForm: the loop over the kprobes, refusing the whole policy at the first that
      does not fit. */
  method ReadPolicy(doc: Doc) returns (form: Option<Form>)
    ensures form == YamlToForm(doc)
  {
    if doc.name == "" { return None; }
    var reading := NOTHING_READ;
    for i := 0 to |doc.kprobes|
      invariant ReadKProbes(doc.kprobes[..i]) == Some(reading)
    {
      OneMoreKProbe(doc.kprobes, i);
      var next := ReadProbe(reading, doc.kprobes[i]);
      if next.None? {
        KProbesRefused(doc.kprobes, i + 1);
        return None;
      }
      reading := next.value;
    }
    assert doc.kprobes[..|doc.kprobes|] == doc.kprobes;
    return Some(Form(doc.name, doc.namespace, doc.matchLabels, reading.processMode, reading.process,
                     reading.fileMode, reading.file, [], []));
  }

  // ------------------------------------------------------ which documents are opened

  /** Nothing the form has no place for: no matcher it does not know, no binary that is not
      an exception, one bare action at most. */
  ghost predicate PlainSelector(sel: DocSelector) {
    && !sel.unsupported
    && (sel.actionKeys == [] || sel.actionKeys == [0] || sel.actionKeys == [1])
    && forall mb :: mb in sel.matchBinaries ==> mb.operator == "NotIn"
  }

  /** At most one argument, on the program's path. */
  ghost predicate ProcessFits(sel: DocSelector) {
    && PlainSelector(sel)
    && (|sel.matchArgs| == 0
        || (|sel.matchArgs| == 1 && sel.matchArgs[0].index == 0
            && sel.matchArgs[0].operator in {"Equal", "NotEqual", "Postfix", "NotPostfix"}))
  }

  /** At most one argument on the file's path, by prefix, and at most one more, that says
      read or write. */
  ghost predicate FileFits(sel: DocSelector) {
    && PlainSelector(sel)
    && (forall i, j :: 0 <= i < j < |sel.matchArgs| ==> (sel.matchArgs[i].index == 0 <==> sel.matchArgs[j].index != 0))
    && forall a :: a in sel.matchArgs ==>
         if a.index == 0 then a.operator in {"Prefix", "NotPrefix"}
         else a.index == 1 && a.operator == "Equal" && a.values in {["4"], ["2"]}
  }

  /** Whether the list modes agree: at most one is named. */
  ghost predicate OneMode(modes: set<string>) { forall a, b :: a in modes && b in modes ==> a == b }

  /** The modes a selector's arguments name; the older suffix operators name them too. */
  ghost function ProcessModes(sel: DocSelector): set<string> {
    set a | a in sel.matchArgs :: if a.operator in {"NotEqual", "NotPostfix"} then "whitelist" else "blacklist"
  }

  ghost function FileModes(sel: DocSelector): set<string> {
    set a | a in sel.matchArgs && a.index == 0 :: if a.operator == "NotPrefix" then "whitelist" else "blacklist"
  }

  ghost predicate AnyValue(values: seq<string>) { exists v :: v in values && v != "" }

  /** The selector names a program. */
  ghost predicate NamesProcess(sel: DocSelector) {
    if sel.matchArgs == [] then exists mb :: mb in sel.matchBinaries && AnyValue(mb.values)
    else exists a :: a in sel.matchArgs && AnyValue(a.values)
  }

  /** The selector names a path. */
  ghost predicate NamesFile(sel: DocSelector) { exists a :: a in sel.matchArgs && a.index == 0 && AnyValue(a.values) }

  ghost predicate SelectorFits(sel: DocSelector, file: bool) { if file then FileFits(sel) else ProcessFits(sel) }

  ghost function SelectorModes(sel: DocSelector, file: bool): set<string> { if file then FileModes(sel) else ProcessModes(sel) }

  ghost predicate NamesSome(sel: DocSelector, file: bool) { if file then NamesFile(sel) else NamesProcess(sel) }

  /** The modes named so far. */
  ghost function ModesRead(r: Reading, file: bool): set<string> {
    if file then (if r.fileMode == "" then {} else {r.fileMode})
    else match r.modeSeen case None => {} case Some(m) => {m}
  }

  ghost predicate ModeShown(r: Reading) { r.processMode == match r.modeSeen case None => "whitelist" case Some(m) => m }

  /** What is read goes on from r: more rules, or as many; the other kind untouched. */
  ghost predicate GoesOn(r: Reading, r': Reading, file: bool, modes: set<string>, more: bool) {
    && ModesRead(r', file) == ModesRead(r, file) + modes
    && (if file then (r'.processMode, r'.modeSeen, r'.process) == (r.processMode, r.modeSeen, r.process)
        else (r'.fileMode, r'.file) == (r.fileMode, r.file))
    && |r'.process| >= |r.process| && |r'.file| >= |r.file|
    && (more <==> |r'.process| + |r'.file| > |r.process| + |r.file|)
    && (ModeShown(r) ==> ModeShown(r'))
  }

  lemma AnyValueStep(values: seq<string>)
    requires values != []
    ensures AnyValue(values) <==> AnyValue(values[..|values| - 1]) || values[|values| - 1] != ""
  {
    var init, last := values[..|values| - 1], values[|values| - 1];
    assert last in values && values == init + [last];
    if v :| v in init && v != "" { assert v in values; }
    if v :| v in values && v != "" { assert v in init || v == last; }
  }

  lemma {:induction false} BinaryRulesSome(values: seq<string>)
    ensures BinaryRules(values) != [] <==> AnyValue(values)
  {
    if values != [] {
      AnyValueStep(values);
      BinaryRulesSome(values[..|values| - 1]);
    }
  }

  lemma {:induction false} NonEmptySome(values: seq<string>)
    ensures NonEmpty(values) != [] <==> AnyValue(values)
  {
    if values != [] {
      AnyValueStep(values);
      NonEmptySome(values[..|values| - 1]);
    }
  }

  lemma {:induction false} LegacyRulesSome(mbs: seq<BinarySelector>)
    ensures LegacyRules(mbs) != [] <==> exists mb :: mb in mbs && AnyValue(mb.values)
  {
    if mbs != [] {
      assert mbs == mbs[..|mbs| - 1] + [mbs[|mbs| - 1]];
      LegacyRulesSome(mbs[..|mbs| - 1]);
      BinaryRulesSome(mbs[|mbs| - 1].values);
    }
  }

  lemma {:induction false} OnePathRulesCount(paths: seq<string>, r: FileRule)
    ensures |OnePathRules(paths, r)| == |paths|
  {
    if paths != [] { OnePathRulesCount(paths[..|paths| - 1], r); }
  }

  lemma OneArgument(sel: DocSelector, a: ArgSelector)
    requires sel.matchArgs == [a]
    ensures ProcessModes(sel) == {if a.operator in {"NotEqual", "NotPostfix"} then "whitelist" else "blacklist"}
    ensures NamesProcess(sel) <==> AnyValue(a.values)
  {
    assert forall x :: x in [a] <==> x == a;
  }

  lemma ModesNamed(operator: string)
    requires operator in PROCESS_OPERATORS
    ensures ModeOf(operator) == Some(if operator in {"NotEqual", "NotPostfix"} then "whitelist" else "blacklist")
  {
  }

  /** One selector of an execve kprobe: when it is taken, and what it adds. */
  lemma ProcessStep(r: Reading, sel: DocSelector)
    requires SelectorRepresentable(sel, PROCESS_OPERATORS)
    ensures ReadProcess(r, sel).Some? <==> ProcessFits(sel) && OneMode(ModesRead(r, false) + ProcessModes(sel))
    ensures ReadProcess(r, sel).Some? ==> GoesOn(r, ReadProcess(r, sel).value, false, ProcessModes(sel), NamesProcess(sel))
  {
    PlainExactly(sel);
    if sel.matchArgs == [] {
      LegacyRulesSome(sel.matchBinaries);
      assert ProcessModes(sel) == {};
    } else if |sel.matchArgs| == 1 {
      var a := sel.matchArgs[0];
      assert a in sel.matchArgs && sel.matchArgs == [a];
      OneArgument(sel, a);
      BinaryRulesSome(a.values);
      if a.index == 0 { ModesNamed(a.operator); }
    } else {
      assert sel.matchArgs[0] in sel.matchArgs;
    }
  }

  lemma PlainExactly(sel: DocSelector)
    ensures PlainSelector(sel) <==> !sel.unsupported && |sel.actionKeys| <= 1 && (forall n :: n in sel.actionKeys ==> n <= 1)
                                    && forall mb :: mb in sel.matchBinaries ==> mb.operator == "NotIn"
  {
    if |sel.actionKeys| == 1 {
      assert sel.actionKeys[0] in sel.actionKeys && sel.actionKeys == [sel.actionKeys[0]];
    }
  }

  ghost predicate SaysPermission(a: ArgSelector) { a.index == 1 && a.operator == "Equal" && a.values in {["4"], ["2"]} }

  /** At most one argument is no path. */
  ghost predicate OneOther(args: seq<ArgSelector>) {
    forall i, j :: 0 <= i < j < |args| ==> args[i].index == 0 || args[j].index == 0
  }

  ghost predicate AllPaths(args: seq<ArgSelector>) { forall a :: a in args ==> a.index == 0 }

  lemma OthersStep(init: seq<ArgSelector>, last: ArgSelector)
    ensures AllPaths(init + [last]) <==> AllPaths(init) && last.index == 0
    ensures OneOther(init + [last]) <==> OneOther(init) && (last.index == 0 || AllPaths(init))
  {
    var args := init + [last];
    assert args[|init|] == last && forall i :: 0 <= i < |init| ==> args[i] == init[i];
    if !AllPaths(init) {
      var a :| a in init && a.index != 0;
      var i :| 0 <= i < |init| && init[i] == a;
      assert args[i] == a && a in args;
    }
    if OneOther(args) {
      forall i, j | 0 <= i < j < |init| ensures init[i].index == 0 || init[j].index == 0 {
        assert args[i] == init[i] && args[j] == init[j];
      }
    }
  }

  lemma {:induction false} PermissionExactly(args: seq<ArgSelector>)
    ensures ReadPermission(args).Some? <==> (forall a :: a in args && a.index != 0 ==> SaysPermission(a)) && OneOther(args)
    ensures ReadPermission(args) == Some("all") <==> AllPaths(args)
  {
    if args != [] {
      var init, last := args[..|args| - 1], args[|args| - 1];
      assert args == init + [last] && last in args;
      PermissionExactly(init);
      OthersStep(init, last);
      assert "read"[0] == 'r' && "write"[0] == 'w' && "all"[0] == 'a';
    }
  }

  lemma {:induction false} PathArgsExactly(args: seq<ArgSelector>)
    ensures forall a :: a in PathArgs(args) <==> a in args && a.index == 0
    ensures |PathArgs(args)| <= 1 <==> forall i, j :: 0 <= i < j < |args| ==> args[i].index != 0 || args[j].index != 0
  {
    if args != [] {
      var init, last := args[..|args| - 1], args[|args| - 1];
      assert args == init + [last];
      PathArgsExactly(init);
      if PathArgs(init) != [] {
        var a := PathArgs(init)[0];
        assert a in PathArgs(init);
        var i :| 0 <= i < |init| && init[i] == a;
        assert args[i] == a;
      }
    }
  }

  lemma FileFitsExactly(sel: DocSelector)
    requires SelectorRepresentable(sel, FILE_OPERATORS)
    ensures FileFits(sel) <==> ReadPermission(sel.matchArgs).Some? && |PathArgs(sel.matchArgs)| <= 1
  {
    PlainExactly(sel);
    PermissionExactly(sel.matchArgs);
    PathArgsExactly(sel.matchArgs);
  }

  lemma OnePath(sel: DocSelector, a: ArgSelector)
    requires PathArgs(sel.matchArgs) == [a]
    ensures FileModes(sel) == {if a.operator == "NotPrefix" then "whitelist" else "blacklist"}
    ensures NamesFile(sel) <==> AnyValue(a.values)
  {
    PathArgsExactly(sel.matchArgs);
    assert forall x :: x in [a] <==> x == a;
  }

  lemma NoPath(sel: DocSelector)
    requires PathArgs(sel.matchArgs) == []
    ensures FileModes(sel) == {} && !NamesFile(sel)
  {
    PathArgsExactly(sel.matchArgs);
  }

  lemma PathRulesSome(mode: string, paths: seq<string>, bins: seq<string>, perm: string)
    requires paths != []
    ensures PathRules(mode, paths, bins, perm) != []
  {
    if mode != "whitelist" { OnePathRulesCount(paths, FileRule(paths, bins, if perm == "all" then "" else perm)); }
  }

  /** One selector of a file kprobe. */
  lemma FileStep(r: Reading, sel: DocSelector)
    requires SelectorRepresentable(sel, FILE_OPERATORS)
    ensures ReadFile(r, sel).Some? <==> FileFits(sel) && OneMode(ModesRead(r, true) + FileModes(sel))
    ensures ReadFile(r, sel).Some? ==> GoesOn(r, ReadFile(r, sel).value, true, FileModes(sel), NamesFile(sel))
  {
    FileFitsExactly(sel);
    var paths := PathArgs(sel.matchArgs);
    if FileFits(sel) && |paths| == 1 {
      PathStep(r, sel, paths[0]);
    } else if FileFits(sel) {
      NoPath(sel);
      NoPathRead(r, sel);
    }
  }

  lemma NoPathRead(r: Reading, sel: DocSelector)
    requires ReadPermission(sel.matchArgs).Some? && PathArgs(sel.matchArgs) == []
    ensures ReadFile(r, sel) == Some(r) && OneMode(ModesRead(r, true) + {}) && GoesOn(r, r, true, {}, false)
  {
  }

  lemma PathStep(r: Reading, sel: DocSelector, a: ArgSelector)
    requires SelectorRepresentable(sel, FILE_OPERATORS) && ReadPermission(sel.matchArgs).Some? && PathArgs(sel.matchArgs) == [a]
    ensures ReadFile(r, sel).Some? <==> OneMode(ModesRead(r, true) + FileModes(sel))
    ensures ReadFile(r, sel).Some? ==> GoesOn(r, ReadFile(r, sel).value, true, FileModes(sel), NamesFile(sel))
  {
    PathArgsExactly(sel.matchArgs);
    assert a in PathArgs(sel.matchArgs);
    OnePath(sel, a);
    NonEmptySome(a.values);
    PathNamed(r, sel, a);
    assert "whitelist"[0] == 'w' && "blacklist"[0] == 'b';
  }

  lemma PathNamed(r: Reading, sel: DocSelector, a: ArgSelector)
    requires PathArgs(sel.matchArgs) == [a] && ReadPermission(sel.matchArgs).Some? && a.operator in FILE_OPERATORS
    ensures var mode := if a.operator == "NotPrefix" then "whitelist" else "blacklist";
            var read := ReadFile(r, sel);
            && (read.Some? <==> r.fileMode == "" || r.fileMode == mode)
            && (read.Some? ==> && read.value.fileMode == mode
                               && read.value.(fileMode := r.fileMode, file := r.file) == r
                               && |read.value.file| >= |r.file|
                               && (|read.value.file| > |r.file| <==> NonEmpty(a.values) != []))
  {
    var mode := if a.operator == "NotPrefix" then "whitelist" else "blacklist";
    var paths := NonEmpty(a.values);
    if paths != [] { PathRulesSome(mode, paths, NonEmpty(FlatValues(sel.matchBinaries)), ReadPermission(sel.matchArgs).value); }
  }

  function Operators(file: bool): seq<string> { if file then FILE_OPERATORS else PROCESS_OPERATORS }

  lemma FitsIsRepresentable(sel: DocSelector, file: bool)
    requires SelectorFits(sel, file)
    ensures SelectorRepresentable(sel, Operators(file))
  {
    PlainExactly(sel);
    assert forall o :: o in {"Prefix", "NotPrefix"} ==> o in FILE_OPERATORS by {
      assert FILE_OPERATORS[0] == "Prefix" && FILE_OPERATORS[1] == "NotPrefix";
    }
    assert forall o :: o in {"Equal", "NotEqual", "Postfix", "NotPostfix"} ==> o in PROCESS_OPERATORS by {
      assert PROCESS_OPERATORS[0] == "Equal" && PROCESS_OPERATORS[1] == "NotEqual";
      assert PROCESS_OPERATORS[2] == "Postfix" && PROCESS_OPERATORS[3] == "NotPostfix";
    }
  }

  ghost function ModesOf(sels: seq<DocSelector>, file: bool): set<string> {
    set s, m | s in sels && m in SelectorModes(s, file) :: m
  }

  ghost predicate AnyNames(sels: seq<DocSelector>, file: bool) { exists s :: s in sels && NamesSome(s, file) }

  ghost predicate AllFit(sels: seq<DocSelector>, file: bool) { forall s :: s in sels ==> SelectorFits(s, file) }

  lemma SelectorsGrow(init: seq<DocSelector>, last: DocSelector, file: bool)
    ensures ModesOf(init + [last], file) == ModesOf(init, file) + SelectorModes(last, file)
    ensures AnyNames(init + [last], file) <==> AnyNames(init, file) || NamesSome(last, file)
    ensures AllFit(init + [last], file) <==> AllFit(init, file) && SelectorFits(last, file)
  {
    assert forall s :: s in init + [last] <==> s in init || s == last;
  }

  lemma SelectorStep(r: Reading, sel: DocSelector, file: bool)
    requires SelectorRepresentable(sel, Operators(file))
    ensures var read := if file then ReadFile(r, sel) else ReadProcess(r, sel);
            && (read.Some? <==> SelectorFits(sel, file) && OneMode(ModesRead(r, file) + SelectorModes(sel, file)))
            && (read.Some? ==> GoesOn(r, read.value, file, SelectorModes(sel, file), NamesSome(sel, file)))
  {
    if file { FileStep(r, sel); } else { ProcessStep(r, sel); }
  }

  lemma GoesOnTwice(r: Reading, r': Reading, r'': Reading, file: bool, a: set<string>, b: set<string>, some: bool, more: bool)
    requires GoesOn(r, r', file, a, some) && GoesOn(r', r'', file, b, more)
    ensures GoesOn(r, r'', file, a + b, some || more)
  {
    assert ModesRead(r, file) + a + b == ModesRead(r, file) + (a + b);
  }

  lemma {:induction false} SelectorsExactly(r: Reading, sels: seq<DocSelector>, file: bool)
    requires forall s :: s in sels ==> SelectorRepresentable(s, Operators(file))
    ensures var read := ReadSelectors(r, sels, file);
            && (read.Some? <==> AllFit(sels, file) && OneMode(ModesRead(r, file) + ModesOf(sels, file)))
            && (read.Some? ==> GoesOn(r, read.value, file, ModesOf(sels, file), AnyNames(sels, file)))
  {
    if sels == [] {
      assert ModesOf(sels, file) == {};
    } else {
      var init, last := sels[..|sels| - 1], sels[|sels| - 1];
      assert sels == init + [last];
      SelectorsExactly(r, init, file);
      SelectorsGrow(init, last, file);
      Regrouped(ModesRead(r, file), ModesOf(init, file), SelectorModes(last, file));
      if ReadSelectors(r, init, file).Some? {
        var r' := ReadSelectors(r, init, file).value;
        SelectorStep(r', last, file);
        if ReadSelectors(r, sels, file).Some? {
          GoesOnTwice(r, r', ReadSelectors(r, sels, file).value, file, ModesOf(init, file), SelectorModes(last, file),
                      AnyNames(init, file), NamesSome(last, file));
        }
      }
    }
  }

  lemma Regrouped(a: set<string>, b: set<string>, c: set<string>)
    ensures a + b + c == a + (b + c)
  {
  }

  /** The kprobes the form knows: execve under any prefix, and four file calls. */
  ghost predicate IsProcess(kp: DocKProbe) { Contains(kp.call, "sys_execve") }

  ghost predicate IsFile(kp: DocKProbe) {
    !IsProcess(kp) && kp.call in {"security_file_permission", "sys_read", "sys_write", "sys_openat"}
  }

  /** A kprobe the form can show in full: of a known call, without options, every selector
      fitting, and some program or path named. */
  ghost predicate KProbeFits(kp: DocKProbe) {
    && (IsProcess(kp) || IsFile(kp))
    && kp.ret != Some(true) && !kp.returnArg && !kp.message && !kp.tags
    && AllFit(kp.selectors, IsFile(kp)) && AnyNames(kp.selectors, IsFile(kp))
  }

  lemma KProbeStep(r: Reading, kp: DocKProbe)
    ensures var read := ReadKProbe(r, kp);
            && (read.Some? <==> KProbeFits(kp) && OneMode(ModesRead(r, IsFile(kp)) + ModesOf(kp.selectors, IsFile(kp))))
            && (read.Some? ==> GoesOn(r, read.value, IsFile(kp), ModesOf(kp.selectors, IsFile(kp)), true))
  {
    var file := IsFile(kp);
    if IsProcess(kp) || IsFile(kp) {
      if AllFit(kp.selectors, file) {
        forall s | s in kp.selectors ensures SelectorRepresentable(s, Operators(file)) { FitsIsRepresentable(s, file); }
      }
      if Representable(kp, Operators(file)) {
        SelectorsExactly(r, kp.selectors, file);
        assert ReadKProbe(r, kp).Some? <==> ReadSelectors(r, kp.selectors, file).Some? && AnyNames(kp.selectors, file);
      }
    }
  }

  /** The modes the kprobes of one kind name. */
  ghost function DocModes(kps: seq<DocKProbe>, file: bool): set<string> {
    set kp, m | kp in kps && IsFile(kp) == file && m in ModesOf(kp.selectors, file) :: m
  }

  ghost predicate Fits(kps: seq<DocKProbe>) {
    (forall kp :: kp in kps ==> KProbeFits(kp)) && OneMode(DocModes(kps, false)) && OneMode(DocModes(kps, true))
  }

  lemma KProbesGrow(init: seq<DocKProbe>, last: DocKProbe)
    ensures DocModes(init + [last], IsFile(last)) == DocModes(init, IsFile(last)) + ModesOf(last.selectors, IsFile(last))
    ensures DocModes(init + [last], !IsFile(last)) == DocModes(init, !IsFile(last))
    ensures (forall kp :: kp in init + [last] ==> KProbeFits(kp)) <==> (forall kp :: kp in init ==> KProbeFits(kp)) && KProbeFits(last)
  {
    assert forall kp :: kp in init + [last] <==> kp in init || kp == last;
  }

  lemma {:induction false} KProbesExactly(kps: seq<DocKProbe>)
    ensures var read := ReadKProbes(kps);
            && (read.Some? <==> Fits(kps))
            && (read.Some? ==>
                  && ModesRead(read.value, false) == DocModes(kps, false) && ModesRead(read.value, true) == DocModes(kps, true)
                  && ModeShown(read.value))
  {
    if kps != [] {
      var init, last := kps[..|kps| - 1], kps[|kps| - 1];
      assert kps == init + [last];
      KProbesExactly(init);
      KProbesGrow(init, last);
      if ReadKProbes(init).Some? { KProbeAdds(ReadKProbes(init).value, last, DocModes(init, IsFile(last)), DocModes(init, !IsFile(last))); }
    }
  }

  lemma KProbeAdds(r: Reading, kp: DocKProbe, own: set<string>, other: set<string>)
    requires ModesRead(r, IsFile(kp)) == own && ModesRead(r, !IsFile(kp)) == other && ModeShown(r)
    ensures ReadKProbe(r, kp).Some? <==> KProbeFits(kp) && OneMode(own + ModesOf(kp.selectors, IsFile(kp)))
    ensures OneMode(other)
    ensures ReadKProbe(r, kp).Some? ==>
              var r' := ReadKProbe(r, kp).value;
              && ModesRead(r', IsFile(kp)) == own + ModesOf(kp.selectors, IsFile(kp))
              && ModesRead(r', !IsFile(kp)) == other && ModeShown(r')
  {
    KProbeStep(r, kp);
  }

  /** A document is opened exactly when it has a name, every kprobe fits the form, and
      neither its programs nor its files are listed in two modes. A list is then a
      blacklist or a whitelist as its operators say, the older suffix operators too. */
  lemma OpensExactly(doc: Doc)
    ensures YamlToForm(doc).Some? <==> doc.name != "" && Fits(doc.kprobes)
    ensures YamlToForm(doc).Some? ==>
              var form := YamlToForm(doc).value;
              && (form.name, form.namespace, form.podSelector) == (doc.name, doc.namespace, doc.matchLabels)
              && form.processMode == (if "blacklist" in DocModes(doc.kprobes, false) then "blacklist" else "whitelist")
              && form.fileMode == (if "blacklist" in DocModes(doc.kprobes, true) then "blacklist"
                                   else if "whitelist" in DocModes(doc.kprobes, true) then "whitelist" else "")
  {
    KProbesExactly(doc.kprobes);
    ModeNames(doc.kprobes);
  }

  lemma ModeNames(kps: seq<DocKProbe>)
    ensures forall m, file :: m in DocModes(kps, file) ==> m == "whitelist" || m == "blacklist"
    ensures "whitelist" != "blacklist"
  {
    assert "whitelist"[0] == 'w' && "blacklist"[0] == 'b';
  }

  /** The rule of one program: itself, put under the root unless it is there. */
  ghost predicate IsRuleOf(rule: seq<string>, v: string) { v != "" && rule == [if v[0] == '/' then v else "/" + v] }

  ghost predicate InValues(rule: seq<string>, values: seq<string>) { exists v :: v in values && IsRuleOf(rule, v) }

  /** The programs an execve selector stands for: its argument's values, or without one
      those of its binaries. */
  lemma ProcessReads(r: Reading, sel: DocSelector, rule: seq<string>)
    requires ReadProcess(r, sel).Some?
    ensures r.process <= ReadProcess(r, sel).value.process
    ensures rule in ReadProcess(r, sel).value.process[|r.process|..]
       <==> if sel.matchArgs == [] then exists mb :: mb in sel.matchBinaries && InValues(rule, mb.values)
            else InValues(rule, sel.matchArgs[0].values)
  {
    if sel.matchArgs == [] { LegacyRulesAre(sel.matchBinaries, rule); } else { BinaryRulesAre(sel.matchArgs[0].values, rule); }
  }

  lemma {:induction false} BinaryRulesAre(values: seq<string>, rule: seq<string>)
    ensures rule in BinaryRules(values) <==> InValues(rule, values)
  {
    if values != [] {
      var init, last := values[..|values| - 1], values[|values| - 1];
      assert values == init + [last];
      BinaryRulesAre(init, rule);
      assert InValues(rule, values) <==> InValues(rule, init) || IsRuleOf(rule, last) by {
        if IsRuleOf(rule, last) { assert last in values; }
        if v :| v in init && IsRuleOf(rule, v) { assert v in values; }
        if v :| v in values && IsRuleOf(rule, v) { assert v in init || v == last; }
      }
    }
  }

  lemma {:induction false} LegacyRulesAre(mbs: seq<BinarySelector>, rule: seq<string>)
    ensures rule in LegacyRules(mbs) <==> exists mb :: mb in mbs && InValues(rule, mb.values)
  {
    if mbs != [] {
      assert mbs == mbs[..|mbs| - 1] + [mbs[|mbs| - 1]];
      LegacyRulesAre(mbs[..|mbs| - 1], rule);
      BinaryRulesAre(mbs[|mbs| - 1].values, rule);
    }
  }

  // -------------------------------------------------------- documents of policies

  function SelectorDoc(s: Selector): DocSelector {
    DocSelector(false, s.matchBinaries, s.matchArgs, seq(|s.matchActions|, _ => 1))
  }

  function SelectorDocs(sels: seq<Selector>): seq<DocSelector> {
    if sels == [] then [] else SelectorDocs(sels[..|sels| - 1]) + [SelectorDoc(sels[|sels| - 1])]
  }

  /** A kprobe as written, or with the default the cluster adds to it. */
  function KProbeDoc(kp: KProbe, defaulted: bool): DocKProbe {
    DocKProbe(kp.call, if defaulted then Some(false) else None, false, false, false, SelectorDocs(kp.selectors))
  }

  function KProbeDocs(kprobes: seq<KProbe>, defaulted: bool): seq<DocKProbe> {
    seq(|kprobes|, i requires 0 <= i < |kprobes| => KProbeDoc(kprobes[i], defaulted))
  }

  function DocOf(p: Policy, defaulted: bool): Doc {
    Doc(p.name, p.namespace, p.podSelector, KProbeDocs(p.kprobes, defaulted))
  }

  // -------------------------------------------- what comes back from a built policy

  lemma {:induction false} CleanIsNonEmpty(list: seq<string>)
    requires IsClean(list)
    ensures NonEmpty(list) == list
  {
    if list != [] {
      var init, last := list[..|list| - 1], list[|list| - 1];
      CleanInit(list);
      CleanIsNonEmpty(init);
    }
  }

  /** Reading the binaries back and flattening them again gives the same list. */
  lemma {:induction false} BinariesReopen(bins: seq<string>)
    requires IsClean(bins)
    ensures Flat(BinaryRules(bins)) == bins && |BinaryRules(bins)| == |bins|
  {
    if bins != [] {
      var init, b := bins[..|bins| - 1], bins[|bins| - 1];
      CleanInit(bins);
      BinariesReopen(init);
      var r := BinaryRules(init);
      assert (r + [[b]])[..|r|] == r;
    }
  }

  function SeenPermission(perm: string): string {
    if perm == "read" || perm == "write" then perm else ""
  }

  lemma ReadNoPermission(a: ArgSelector)
    requires a.index == 0
    ensures ReadPermission([a]) == Some("all") && PathArgs([a]) == [a]
  {
    assert [a][..0] == [] && ReadPermission([]) == Some("all") && PathArgs([]) == [];
  }

  lemma ReadOnePermission(a: ArgSelector, p: ArgSelector)
    requires a.index == 0 && p.index == 1 && p.operator == "Equal" && (p.values == ["4"] || p.values == ["2"])
    ensures ReadPermission([a, p]) == Some(if p.values == ["4"] then "read" else "write")
    ensures PathArgs([a, p]) == [a]
  {
    ReadNoPermission(a);
    assert [a, p][..1] == [a];
  }

  lemma PermissionReopens(op: string, paths: seq<string>, perm: string)
    ensures ReadPermission([ArgSelector(0, op, paths)] + PermArgs(perm))
         == Some(if SeenPermission(perm) == "" then "all" else perm)
    ensures PathArgs([ArgSelector(0, op, paths)] + PermArgs(perm)) == [ArgSelector(0, op, paths)]
  {
    var a := ArgSelector(0, op, paths);
    if SeenPermission(perm) == "" {
      assert [a] + PermArgs(perm) == [a];
      ReadNoPermission(a);
    } else {
      var p := ArgSelector(1, "Equal", if perm == "read" then ["4"] else ["2"]);
      assert PermArgs(perm) == [p] && [a] + [p] == [a, p];
      assert ["4"][0][0] == '4' && ["2"][0][0] == '2';
      ReadOnePermission(a, p);
    }
  }

  lemma ExceptionsReopen(bins: seq<string>)
    requires IsClean(bins)
    ensures NonEmpty(FlatValues(Exceptions(bins))) == bins
  {
    CleanIsNonEmpty(bins);
    if bins != [] {
      var b := BinarySelector("NotIn", bins);
      assert [b][..0] == [] && FlatValues([]) == [];
      assert FlatValues([b]) == [] + bins == bins;
    }
  }

  /** A file selector of the builder reads back as the rules of its parts. */
  lemma FileSelectorReopens(r: Reading, op: string, paths: seq<string>, perm: string, bins: seq<string>, action: string)
    requires op in {"Prefix", "NotPrefix"} && IsClean(paths) && paths != [] && IsClean(bins)
    requires r.fileMode == "" || r.fileMode == if op == "NotPrefix" then "whitelist" else "blacklist"
    ensures var mode := if op == "NotPrefix" then "whitelist" else "blacklist";
            ReadFile(r, SelectorDoc(FileSelector(op, paths, perm, bins, action)))
              == Some(r.(fileMode := mode, file := r.file + PathRules(mode, paths, bins, SeenPermission(perm))))
  {
    PermissionReopens(op, paths, perm);
    ExceptionsReopen(bins);
    CleanIsNonEmpty(paths);
  }

  lemma SelectorIsRepresentable(op: string, paths: seq<string>, perm: string, bins: seq<string>, action: string)
    requires op in {"Prefix", "NotPrefix"}
    ensures SelectorRepresentable(SelectorDoc(FileSelector(op, paths, perm, bins, action)), FILE_OPERATORS)
  {
  }

  // --------------------------------------------------------------------- blacklists

  /** The rules that have a selector, cleaned. */
  function CleanRules(rules: seq<FileRule>): seq<FileRule> {
    if rules == [] then []
    else
      var r := rules[|rules| - 1];
      var init := CleanRules(rules[..|rules| - 1]);
      if Cleaned(r.paths) == [] then init
      else init + [FileRule(Cleaned(r.paths), Cleaned(r.exceptBinaries), SeenPermission(r.permission))]
  }

  ghost predicate AreClean(rules: seq<FileRule>) {
    forall r :: r in rules ==> r.paths != [] && IsClean(r.paths) && IsClean(r.exceptBinaries) && SeenPermission(r.permission) == r.permission
  }

  function RuleSelector(r: FileRule, action: string): Selector {
    FileSelector("Prefix", r.paths, r.permission, r.exceptBinaries, action)
  }

  function RuleSelectorList(rules: seq<FileRule>, action: string): (sels: seq<Selector>)
    ensures |sels| == |rules|
  {
    if rules == [] then [] else RuleSelectorList(rules[..|rules| - 1], action) + [RuleSelector(rules[|rules| - 1], action)]
  }

  /** A blacklist is built from its clean rules, one selector each. */
  lemma {:induction false} BlacklistIsCleanRules(rules: seq<FileRule>, action: string)
    requires BlacklistSelectors(rules, action).Ok?
    ensures AreClean(CleanRules(rules))
    ensures BlacklistSelectors(rules, action).value == RuleSelectorList(CleanRules(rules), action)
  {
    if rules != [] {
      var init, r := rules[..|rules| - 1], rules[|rules| - 1];
      BlacklistIsCleanRules(init, action);
      if Cleaned(r.paths) != [] {
        CleanedIsClean(r.paths);
        CleanedIsClean(r.exceptBinaries);
        var clean, c := CleanRules(init), FileRule(Cleaned(r.paths), Cleaned(r.exceptBinaries), SeenPermission(r.permission));
        assert (clean + [c])[..|clean|] == clean;
      }
    }
  }

  lemma AreCleanInit(rules: seq<FileRule>)
    requires AreClean(rules) && rules != []
    ensures var init, r := rules[..|rules| - 1], rules[|rules| - 1];
            && rules == init + [r] && AreClean(init) && r in rules
            && r.paths != [] && IsClean(r.paths) && IsClean(r.exceptBinaries) && SeenPermission(r.permission) == r.permission
  {
    forall r | r in rules[..|rules| - 1] ensures r in rules { }
    assert rules[|rules| - 1] in rules;
  }

  /** And clean rules build into exactly their selectors. */
  lemma {:induction false} CleanRulesBuild(rules: seq<FileRule>, action: string)
    requires AreClean(rules)
    ensures BlacklistSelectors(rules, action) == Ok(RuleSelectorList(rules, action))
  {
    if rules != [] {
      var init, r := rules[..|rules| - 1], rules[|rules| - 1];
      AreCleanInit(rules);
      CleanRulesBuild(init, action);
      CleanStaysClean(r.paths);
      CleanStaysClean(r.exceptBinaries);
    }
  }

  lemma {:induction false} OnePathRulesClean(paths: seq<string>, r: FileRule)
    requires IsClean(paths) && IsClean(r.exceptBinaries) && SeenPermission(r.permission) == r.permission
    ensures AreClean(OnePathRules(paths, r)) && |OnePathRules(paths, r)| == |paths|
  {
    if paths != [] {
      var p := paths[|paths| - 1];
      CleanInit(paths);
      OnePathRulesClean(paths[..|paths| - 1], r);
      assert forall q :: q in [p] ==> q == p;
    }
  }

  lemma {:induction false} SplitClean(rules: seq<FileRule>)
    requires AreClean(rules)
    ensures AreClean(SplitRules(rules))
    ensures |SplitRules(rules)| >= |rules|
    ensures |SplitRules(rules)| == |rules| <==> forall r :: r in rules ==> |r.paths| == 1
  {
    if rules != [] {
      var init, r := rules[..|rules| - 1], rules[|rules| - 1];
      AreCleanInit(rules);
      SplitClean(init);
      CleanIsNonEmpty(r.paths);
      OnePathRulesClean(r.paths, r);
    }
  }

  lemma {:induction false} SingleRulesSplitToThemselves(rules: seq<FileRule>)
    requires AreClean(rules) && forall r :: r in rules ==> |r.paths| == 1
    ensures SplitRules(rules) == rules
  {
    if rules != [] {
      var init, r := rules[..|rules| - 1], rules[|rules| - 1];
      AreCleanInit(rules);
      SingleRulesSplitToThemselves(init);
      CleanIsNonEmpty(r.paths);
      assert r.paths == [r.paths[0]] && r.paths[..0] == [];
      assert OnePathRules([], r) == [];
      assert OnePathRules(r.paths, r) == [r];
    }
  }

  lemma OneMoreSelector(r: Reading, sels: seq<Selector>, s: Selector, file: bool)
    ensures SelectorDocs(sels + [s]) == SelectorDocs(sels) + [SelectorDoc(s)]
    ensures ReadSelectors(r, SelectorDocs(sels) + [SelectorDoc(s)], file)
         == match ReadSelectors(r, SelectorDocs(sels), file)
            case None => None
            case Some(r') => if file then ReadFile(r', SelectorDoc(s)) else ReadProcess(r', SelectorDoc(s))
  {
    assert (sels + [s])[..|sels|] == sels;
    var docs := SelectorDocs(sels);
    assert (docs + [SelectorDoc(s)])[..|docs|] == docs;
  }

  /** The selectors of clean rules read back as the rules split by path. */
  lemma {:induction false} RulesReopen(r: Reading, rules: seq<FileRule>, action: string)
    requires AreClean(rules) && r.fileMode == "" && r.file == []
    ensures ReadSelectors(r, SelectorDocs(RuleSelectorList(rules, action)), true)
         == Some(r.(fileMode := if rules == [] then "" else "blacklist", file := SplitRules(rules)))
  {
    if rules != [] {
      var init, last := rules[..|rules| - 1], rules[|rules| - 1];
      AreCleanInit(rules);
      RulesReopen(r, init, action);
      OneMoreSelector(r, RuleSelectorList(init, action), RuleSelector(last, action), true);
      LastRuleReopens(r.(fileMode := if init == [] then "" else "blacklist", file := SplitRules(init)), last, action);
    }
  }

  lemma LastRuleReopens(r: Reading, last: FileRule, action: string)
    requires AreClean([last]) && (r.fileMode == "" || r.fileMode == "blacklist")
    ensures ReadFile(r, SelectorDoc(RuleSelector(last, action)))
         == Some(r.(fileMode := "blacklist", file := r.file + OnePathRules(NonEmpty(last.paths), last)))
  {
    assert last in [last];
    FileSelectorReopens(r, "Prefix", last.paths, last.permission, last.exceptBinaries, action);
    CleanIsNonEmpty(last.paths);
    assert FileRule(last.paths, last.exceptBinaries, SeenPermission(last.permission)) == last;
    assert SeenPermission(last.permission) != "all";
  }

  lemma {:induction false} RulesRepresentable(rules: seq<FileRule>, action: string)
    ensures forall d :: d in SelectorDocs(RuleSelectorList(rules, action)) ==> SelectorRepresentable(d, FILE_OPERATORS)
  {
    if rules != [] {
      RulesRepresentable(rules[..|rules| - 1], action);
      var r := rules[|rules| - 1];
      SelectorIsRepresentable("Prefix", r.paths, r.permission, r.exceptBinaries, action);
      var sels := RuleSelectorList(rules[..|rules| - 1], action);
      assert (sels + [RuleSelector(r, action)])[..|sels|] == sels;
    }
  }

  // ------------------------------------------------------------------ whole policies

  /** The file mode and rules a built policy's selectors reopen as. */
  function ReopenedFile(form: Form, action: string): (string, seq<FileRule>)
    requires FileSelectors(form, action).Ok?
  {
    if FileSelectors(form, action).value == [] then ("", [])
    else if form.fileMode == "whitelist" then
      var x := ExclusionOf(form.file).value;
      ("whitelist", [FileRule(x.paths, x.bins, SeenPermission(x.permission))])
    else ("blacklist", SplitRules(CleanRules(form.file)))
  }

  function Reopened(form: Form, action: string): Form
    requires FileSelectors(form, action).Ok?
  {
    var bins := Cleaned(Flat(form.process));
    var (fileMode, file) := ReopenedFile(form, action);
    Form(form.name, form.namespace, form.podSelector,
         if bins != [] && form.processMode == "blacklist" then "blacklist" else "whitelist",
         BinaryRules(bins), fileMode, file, [], [])
  }

  lemma ExclusionClean(rules: seq<FileRule>)
    requires ExclusionOf(rules).Ok?
    ensures IsClean(ExclusionOf(rules).value.paths) && IsClean(ExclusionOf(rules).value.bins)
  {
    ExclusionFlat(rules);
    CleanedIsClean(FlatPaths(rules));
    CleanedIsClean(FlatExceptions(rules));
  }

  lemma OneSelector(r: Reading, s: Selector, file: bool)
    ensures SelectorDocs([s]) == [SelectorDoc(s)]
    ensures ReadSelectors(r, [SelectorDoc(s)], file) == if file then ReadFile(r, SelectorDoc(s)) else ReadProcess(r, SelectorDoc(s))
  {
    OneMoreSelector(r, [], s, file);
    assert [] + [s] == [s] && SelectorDocs([]) == [] && [] + [SelectorDoc(s)] == [SelectorDoc(s)];
  }

  lemma WhitelistReopens(r: Reading, x: Exclusion, action: string)
    requires r.fileMode == "" && r.file == [] && IsClean(x.paths) && x.paths != [] && IsClean(x.bins)
    ensures var sels := [FileSelector("NotPrefix", x.paths, x.permission, x.bins, action)];
            && ReadSelectors(r, SelectorDocs(sels), true)
                 == Some(r.(fileMode := "whitelist", file := [FileRule(x.paths, x.bins, SeenPermission(x.permission))]))
            && forall d :: d in SelectorDocs(sels) ==> SelectorRepresentable(d, FILE_OPERATORS)
  {
    var s := FileSelector("NotPrefix", x.paths, x.permission, x.bins, action);
    OneSelector(r, s, true);
    FileSelectorReopens(r, "NotPrefix", x.paths, x.permission, x.bins, action);
    SelectorIsRepresentable("NotPrefix", x.paths, x.permission, x.bins, action);
    assert SeenPermission(x.permission) != "all";
    var rule := FileRule(x.paths, x.bins, SeenPermission(x.permission));
    assert r.file + PathRules("whitelist", x.paths, x.bins, SeenPermission(x.permission)) == [rule];
  }

  /** The built file selectors read back, and are representable. */
  lemma FileSelectorsReopen(form: Form, action: string, r: Reading)
    requires FileSelectors(form, action).Ok? && FileSelectors(form, action).value != []
    requires r.fileMode == "" && r.file == []
    ensures ReadSelectors(r, SelectorDocs(FileSelectors(form, action).value), true)
         == Some(r.(fileMode := ReopenedFile(form, action).0, file := ReopenedFile(form, action).1))
    ensures forall d :: d in SelectorDocs(FileSelectors(form, action).value) ==> SelectorRepresentable(d, FILE_OPERATORS)
  {
    if form.fileMode == "whitelist" {
      ExclusionClean(form.file);
      WhitelistReopens(r, ExclusionOf(form.file).value, action);
    } else {
      BlacklistIsCleanRules(form.file, action);
      RulesReopen(r, CleanRules(form.file), action);
      RulesRepresentable(CleanRules(form.file), action);
    }
  }

  lemma FileCallIsNoExec()
    ensures !Contains(FILE_PERMISSION, EXECVE)
  {
    var s := FILE_PERMISSION;
    assert forall j :: 0 <= j < |s| && s[j] == 'y' ==> j == 7;
    forall i | 0 <= i <= |s| ensures !(EXECVE <= s[i..]) {
      if i + 1 < |s| { assert s[i..][0] == s[i] && s[i..][1] == s[i + 1]; }
      assert EXECVE[0] == 's' && EXECVE[1] == 'y';
    }
  }

  /** A file probe that can be shown reads as its selectors, if they add something. */
  lemma FileProbeReads(r: Reading, kp: DocKProbe, r': Reading)
    requires kp.call == FILE_PERMISSION && Representable(kp, FILE_OPERATORS)
    requires ReadSelectors(r, kp.selectors, true) == Some(r') && |r'.process| + |r'.file| != |r.process| + |r.file|
    ensures ReadKProbe(r, kp) == Some(r')
  {
    FileCallIsNoExec();
  }

  /** A built file section reopens with at least one rule. */
  lemma ReopenedFileSome(form: Form, action: string)
    requires FileSelectors(form, action).Ok? && FileSelectors(form, action).value != []
    ensures ReopenedFile(form, action).1 != []
  {
    if form.fileMode != "whitelist" {
      BlacklistIsCleanRules(form.file, action);
      SplitClean(CleanRules(form.file));
    }
  }

  lemma FileProbeReopens(form: Form, action: string, r: Reading, defaulted: bool)
    requires FileSelectors(form, action).Ok? && FileSelectors(form, action).value != []
    requires r.fileMode == "" && r.file == []
    ensures ReadKProbe(r, KProbeDoc(FileProbes(FileSelectors(form, action).value)[0], defaulted))
         == Some(r.(fileMode := ReopenedFile(form, action).0, file := ReopenedFile(form, action).1))
  {
    var sels := FileSelectors(form, action).value;
    var kp := KProbeDoc(FileProbes(sels)[0], defaulted);
    FileSelectorsReopen(form, action, r);
    ReopenedFileSome(form, action);
    assert kp.call == FILE_PERMISSION && kp.selectors == SelectorDocs(sels);
    FileProbeReads(r, kp, r.(fileMode := ReopenedFile(form, action).0, file := ReopenedFile(form, action).1));
  }

  function ProcessRead(op: string, bins: seq<string>): Reading {
    var mode := if op == "Equal" then "blacklist" else "whitelist";
    Reading(mode, Some(mode), BinaryRules(bins), "", [])
  }

  lemma ProcessSelectorReopens(op: string, bins: seq<string>, action: string)
    requires op in {"Equal", "NotEqual"}
    ensures var s := Selector([], [ArgSelector(0, op, bins)], [action]);
            && ReadProcess(NOTHING_READ, SelectorDoc(s)) == Some(ProcessRead(op, bins))
            && SelectorRepresentable(SelectorDoc(s), PROCESS_OPERATORS)
  {
    assert [] + BinaryRules(bins) == BinaryRules(bins);
    assert PROCESS_OPERATORS[0] == "Equal" && PROCESS_OPERATORS[1] == "NotEqual";
  }

  lemma ProcessProbeReads(r: Reading, kp: DocKProbe, r': Reading)
    requires kp.call == EXECVE && Representable(kp, PROCESS_OPERATORS)
    requires ReadSelectors(r, kp.selectors, false) == Some(r') && |r'.process| + |r'.file| != |r.process| + |r.file|
    ensures ReadKProbe(r, kp) == Some(r')
  {
    assert EXECVE <= EXECVE[0..];
  }

  lemma ProcessProbeReopens(op: string, bins: seq<string>, action: string, defaulted: bool)
    requires op in {"Equal", "NotEqual"} && bins != [] && IsClean(bins)
    ensures ReadKProbe(NOTHING_READ, KProbeDoc(ProcessProbes(op, bins, action)[0], defaulted)) == Some(ProcessRead(op, bins))
  {
    var s := Selector([], [ArgSelector(0, op, bins)], [action]);
    var kp := KProbeDoc(ProcessProbes(op, bins, action)[0], defaulted);
    OneSelector(NOTHING_READ, s, false);
    ProcessSelectorReopens(op, bins, action);
    BinariesReopen(bins);
    assert kp.call == EXECVE && kp.selectors == [SelectorDoc(s)];
    ProcessProbeReads(NOTHING_READ, kp, ProcessRead(op, bins));
  }

  lemma TwoKProbes(a: DocKProbe, b: DocKProbe)
    ensures ReadKProbes([a]) == ReadKProbe(NOTHING_READ, a)
    ensures ReadKProbes([a, b]) == match ReadKProbes([a]) case None => None case Some(r) => ReadKProbe(r, b)
  {
    assert [a][..0] == [] && ReadKProbes([]) == Some(NOTHING_READ);
    assert [a, b][..1] == [a];
  }

  /** What has been read when a form's process probe, if any, and its file probe, if
      any, are through. */
  ghost predicate ReadBack(r: Option<Reading>, form: Form, action: string)
    requires FileSelectors(form, action).Ok?
  {
    var back := Reopened(form, action);
    && r.Some? && r.value.processMode == back.processMode && r.value.process == back.process
    && r.value.fileMode == back.fileMode && r.value.file == back.file
  }

  lemma FileAloneReopens(form: Form, action: string, defaulted: bool)
    requires FileSelectors(form, action).Ok? && FileSelectors(form, action).value != [] && Cleaned(Flat(form.process)) == []
    ensures ReadBack(ReadKProbes(KProbeDocs(FileProbes(FileSelectors(form, action).value), defaulted)), form, action)
  {
    var f := KProbeDoc(FileProbes(FileSelectors(form, action).value)[0], defaulted);
    assert KProbeDocs(FileProbes(FileSelectors(form, action).value), defaulted) == [f];
    TwoKProbes(f, f);
    FileProbeReopens(form, action, NOTHING_READ, defaulted);
  }

  lemma ProcessAloneReopens(form: Form, action: string, defaulted: bool)
    requires FileSelectors(form, action) == Ok([]) && Cleaned(Flat(form.process)) != [] && AllAbsolute(Flat(form.process))
    ensures ReadBack(ReadKProbes(KProbeDocs(ProcessProbes(ProcessOperator(form), Cleaned(Flat(form.process)), action), defaulted)),
                     form, action)
  {
    CleanedIsClean(Flat(form.process));
    var bins := Cleaned(Flat(form.process));
    var p := KProbeDoc(ProcessProbes(ProcessOperator(form), bins, action)[0], defaulted);
    assert KProbeDocs(ProcessProbes(ProcessOperator(form), bins, action), defaulted) == [p];
    TwoKProbes(p, p);
    ProcessProbeReopens(ProcessOperator(form), bins, action, defaulted);
  }

  lemma BothReopen(form: Form, action: string, defaulted: bool)
    requires FileSelectors(form, action).Ok? && FileSelectors(form, action).value != []
    requires Cleaned(Flat(form.process)) != [] && AllAbsolute(Flat(form.process))
    ensures var kps := ProcessProbes(ProcessOperator(form), Cleaned(Flat(form.process)), action)
                       + FileProbes(FileSelectors(form, action).value);
            ReadBack(ReadKProbes(KProbeDocs(kps, defaulted)), form, action)
  {
    CleanedIsClean(Flat(form.process));
    var op, bins, sels := ProcessOperator(form), Cleaned(Flat(form.process)), FileSelectors(form, action).value;
    var p, f := KProbeDoc(ProcessProbes(op, bins, action)[0], defaulted), KProbeDoc(FileProbes(sels)[0], defaulted);
    assert KProbeDocs(ProcessProbes(op, bins, action) + FileProbes(sels), defaulted) == [p, f];
    TwoKProbes(p, f);
    ProcessProbeReopens(op, bins, action, defaulted);
    FileProbeReopens(form, action, ProcessRead(op, bins), defaulted);
  }

  /** Every policy built from a named form reopens, as the cluster defaults it or not. */
  lemma BuiltReopens(form: Form, action: string, defaulted: bool)
    requires form.name != "" && Build(form, action).Ok?
    ensures YamlToForm(DocOf(Build(form, action).value, defaulted)) == Some(Reopened(form, action))
  {
    var sels, bins := FileSelectors(form, action).value, Cleaned(Flat(form.process));
    var processed, filed := ProcessProbes(ProcessOperator(form), bins, action), FileProbes(sels);
    if bins == [] {
      assert processed + filed == filed;
      FileAloneReopens(form, action, defaulted);
    } else if sels == [] {
      assert processed + filed == processed;
      ProcessAloneReopens(form, action, defaulted);
    } else {
      BothReopen(form, action, defaulted);
    }
  }

  // -------------------------------------------------------------- and builds again

  lemma SpecificSeen(perm: string)
    ensures PermArgs(SeenPermission(perm)) == PermArgs(perm)
    ensures Specific(SeenPermission(perm)) <==> SeenPermission(perm) != ""
  {
  }

  lemma WhitelistRebuilds(x: Exclusion, action: string)
    requires IsClean(x.paths) && x.paths != [] && IsClean(x.bins)
    ensures WhitelistSelectors([FileRule(x.paths, x.bins, SeenPermission(x.permission))], action)
         == Ok([FileSelector("NotPrefix", x.paths, x.permission, x.bins, action)])
  {
    ExclusionOfOne(FileRule(x.paths, x.bins, SeenPermission(x.permission)));
    CleanStaysClean(x.paths);
    CleanStaysClean(x.bins);
    SpecificSeen(x.permission);
  }

  /** The selectors the reopened form builds: the same for a whitelist, one per path for
      a blacklist. */
  function RebuiltSelectors(form: Form, action: string): seq<Selector>
    requires FileSelectors(form, action).Ok?
  {
    if form.fileMode == "whitelist" then FileSelectors(form, action).value
    else RuleSelectorList(SplitRules(CleanRules(form.file)), action)
  }

  lemma FileRebuilds(form: Form, action: string)
    requires FileSelectors(form, action).Ok?
    ensures FileSelectors(Reopened(form, action), action) == Ok(RebuiltSelectors(form, action))
  {
    if form.fileMode == "whitelist" {
      if FileSelectors(form, action).value != [] {
        ExclusionClean(form.file);
        WhitelistRebuilds(ExclusionOf(form.file).value, action);
      } else {
        assert BlacklistSelectors([], action) == Ok([]);
      }
    } else {
      BlacklistIsCleanRules(form.file, action);
      SplitClean(CleanRules(form.file));
      CleanRulesBuild(SplitRules(CleanRules(form.file)), action);
      if CleanRules(form.file) == [] { assert SplitRules([]) == [] && BlacklistSelectors([], action) == Ok([]); }
    }
  }

  lemma ProcessRebuilds(form: Form, action: string)
    requires FileSelectors(form, action).Ok? && AllAbsolute(Flat(form.process))
    ensures var g, bins := Reopened(form, action), Cleaned(Flat(form.process));
            && AllAbsolute(Flat(g.process)) && Cleaned(Flat(g.process)) == bins
            && (bins != [] ==> ProcessOperator(g) == ProcessOperator(form))
  {
    CleanedIsClean(Flat(form.process));
    BinariesReopen(Cleaned(Flat(form.process)));
    CleanStaysClean(Cleaned(Flat(form.process)));
  }

  /** The built policy with its rebuilt selectors. */
  function Rebuilt(form: Form, action: string): Policy
    requires FileSelectors(form, action).Ok?
  {
    PolicyOf(form, ProcessProbes(ProcessOperator(form), Cleaned(Flat(form.process)), action)
                   + FileProbes(RebuiltSelectors(form, action)))
  }

  /** It is what the reopened form builds. */
  lemma ReopenedBuilds(form: Form, action: string)
    requires Build(form, action).Ok?
    ensures Build(Reopened(form, action), action) == Ok(Rebuilt(form, action))
  {
    FileRebuilds(form, action);
    ProcessRebuilds(form, action);
    RebuiltEmpty(form, action);
    BuildsFrom(Reopened(form, action), action, Cleaned(Flat(form.process)), RebuiltSelectors(form, action));
  }

  /** What a form without network rules is built into, part by part. */
  lemma BuildsFrom(form: Form, action: string, bins: seq<string>, sels: seq<Selector>)
    requires AllAbsolute(Flat(form.process)) && Cleaned(Flat(form.process)) == bins
    requires FileSelectors(form, action) == Ok(sels) && form.network == [] && form.networkPorts == []
    requires bins != [] || sels != []
    ensures Build(form, action) == Ok(PolicyOf(form, ProcessProbes(ProcessOperator(form), bins, action) + FileProbes(sels)))
  {
  }

  lemma RebuiltEmpty(form: Form, action: string)
    requires FileSelectors(form, action).Ok?
    ensures RebuiltSelectors(form, action) == [] <==> FileSelectors(form, action).value == []
    ensures RebuiltSelectors(form, action) == FileSelectors(form, action).value
       <==> form.fileMode == "whitelist" || forall r :: r in form.file ==> |Cleaned(r.paths)| <= 1
  {
    if form.fileMode != "whitelist" {
      BlacklistIsCleanRules(form.file, action);
      SplitClean(CleanRules(form.file));
      CleanRulesSingle(form.file);
      if forall r :: r in CleanRules(form.file) ==> |r.paths| == 1 { SingleRulesSplitToThemselves(CleanRules(form.file)); }
    }
  }

  lemma {:induction false} CleanRulesSingle(rules: seq<FileRule>)
    ensures (forall r :: r in CleanRules(rules) ==> |r.paths| == 1) <==> forall r :: r in rules ==> |Cleaned(r.paths)| <= 1
  {
    if rules != [] {
      assert rules == rules[..|rules| - 1] + [rules[|rules| - 1]];
      CleanRulesSingle(rules[..|rules| - 1]);
      var r := rules[|rules| - 1];
      if Cleaned(r.paths) != [] {
        var c := FileRule(Cleaned(r.paths), Cleaned(r.exceptBinaries), SeenPermission(r.permission));
        assert c in CleanRules(rules);
      }
    }
  }

  /** Splitting clean rules by path keeps what their selectors match. */
  lemma SplitSelectorsMatch(rules: seq<FileRule>, action: string, ev: Event)
    requires AreClean(rules) && ev.FileAccess?
    ensures AnyMatches(RuleSelectorList(SplitRules(rules), action), ev) <==> AnyMatches(RuleSelectorList(rules, action), ev)
  {
    SplitClean(rules);
    CleanRulesBuild(rules, action);
    CleanRulesBuild(SplitRules(rules), action);
    BlacklistMeaning(rules, action, ev);
    BlacklistMeaning(SplitRules(rules), action, ev);
    SplitSaysBlock(rules, ev);
  }

  lemma RebuiltMatches(form: Form, action: string, ev: Event)
    requires FileSelectors(form, action).Ok? && ev.Call() == FILE_PERMISSION
    ensures AnyMatches(RebuiltSelectors(form, action), ev) <==> AnyMatches(FileSelectors(form, action).value, ev)
  {
    if form.fileMode != "whitelist" {
      BlacklistIsCleanRules(form.file, action);
      if ev.FileAccess? {
        SplitSelectorsMatch(CleanRules(form.file), action, ev);
      } else {
        SplitClean(CleanRules(form.file));
        CleanRulesBuild(SplitRules(CleanRules(form.file)), action);
        BlacklistReadsArgs(SplitRules(CleanRules(form.file)), action);
        BlacklistReadsArgs(form.file, action);
        NothingElsewhere(RebuiltSelectors(form, action), ev);
        NothingElsewhere(FileSelectors(form, action).value, ev);
      }
    }
  }

  /** The round trip. A policy built from a named form, as the cluster returns it,
      reopens in the form; building it again gives a policy that triggers on exactly the
      same events; and it is the identical policy exactly when the file mode is whitelist
      or no blacklist rule has two paths. */
  lemma RoundTrip(form: Form, action: string, defaulted: bool, pod: Pod, ev: Event)
    requires form.name != "" && Build(form, action).Ok?
    ensures var p := Build(form, action).value;
            var again := YamlToForm(DocOf(p, defaulted));
            && again.Some? && Build(again.value, action).Ok?
            && (TriggersIn(Build(again.value, action).value, pod, ev) <==> TriggersIn(p, pod, ev))
            && (Build(again.value, action).value == p
                <==> form.fileMode == "whitelist" || forall r :: r in form.file ==> |Cleaned(r.paths)| <= 1)
  {
    BuiltReopens(form, action, defaulted);
    ReopenedBuilds(form, action);
    RebuiltEmpty(form, action);
    RebuiltTriggersIn(form, action, pod, ev);
    SameFileProbes(form, action);
  }

  lemma RebuiltTriggersIn(form: Form, action: string, pod: Pod, ev: Event)
    requires Build(form, action).Ok?
    ensures TriggersIn(Rebuilt(form, action), pod, ev) <==> TriggersIn(Build(form, action).value, pod, ev)
  {
    RebuiltTriggers(form, action, ev);
    SameHeader(form, action, pod);
  }

  lemma SameHeader(form: Form, action: string, pod: Pod)
    requires Build(form, action).Ok?
    ensures AppliesTo(Rebuilt(form, action), pod) <==> AppliesTo(Build(form, action).value, pod)
  {
  }

  lemma RebuiltTriggers(form: Form, action: string, ev: Event)
    requires Build(form, action).Ok?
    ensures Triggers(Rebuilt(form, action), ev) <==> Triggers(Build(form, action).value, ev)
  {
    var op, bins := ProcessOperator(form), Cleaned(Flat(form.process));
    ProbesTrigger(form, op, bins, FileSelectors(form, action).value, action, ev);
    ProbesTrigger(form, op, bins, RebuiltSelectors(form, action), action, ev);
    if ev.Call() == FILE_PERMISSION { RebuiltMatches(form, action, ev); }
  }

  lemma SameFileProbes(form: Form, action: string)
    requires Build(form, action).Ok?
    ensures Rebuilt(form, action) == Build(form, action).value
       <==> RebuiltSelectors(form, action) == FileSelectors(form, action).value
  {
    var a := ProcessProbes(ProcessOperator(form), Cleaned(Flat(form.process)), action);
    var x, y := FileProbes(RebuiltSelectors(form, action)), FileProbes(FileSelectors(form, action).value);
    assert (a + x)[|a|..] == x && (a + y)[|a|..] == y;
  }
}
