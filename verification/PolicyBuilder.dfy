/** The policy form compiled to a tracing policy (internal/policy/builder.go), and the
    form's own normalisation when the file mode is switched
    (web/src/components/PolicyForm/PolicyForm.tsx). The compiled policy is proved to
    trigger exactly as the form says. */
module PolicyBuilder {
  import opened Wrappers
  import opened Text
  import opened Sequences
  import opened TracingPolicy

  datatype FileRule = FileRule(paths: seq<string>, exceptBinaries: seq<string>, permission: string)

  /** `process` holds the binaries of each process rule; the empty string stands for an
      absent optional field. */
  datatype Form = Form(name: string, namespace: string, podSelector: map<string, string>,
                       processMode: string, process: seq<seq<string>>,
                       fileMode: string, file: seq<FileRule>,
                       network: seq<string>, networkPorts: seq<string>)

  datatype BuildError = RelativeBinary | RelativePath | RelativeException | ExceptionsAlone | NetworkRules | NoRules

  type Built<T> = Result<T, BuildError>

  // ------------------------------------------------------------------ clean lists

  function Clean1(p: string): string { Trim(p, GoSpace) }

  predicate Absolute(p: string) { "/" <= p }

  /** The trimmed entries that are not blank. */
  function Cleaned(raw: seq<string>): (r: seq<string>) {
    if raw == [] then []
    else
      var r, p := Cleaned(raw[..|raw| - 1]), Clean1(raw[|raw| - 1]);
      if p == "" then r else r + [p]
  }

  /** Blank entries are skipped, anything else has to be an absolute path. */
  predicate AllAbsolute(raw: seq<string>) {
    forall p :: p in raw ==> Clean1(p) == "" || Absolute(Clean1(p))
  }

  lemma {:induction false} CleanedMembers(raw: seq<string>, p: string)
    ensures p in Cleaned(raw) <==> p != "" && exists r :: r in raw && Clean1(r) == p
  {
    if raw != [] {
      assert raw == raw[..|raw| - 1] + [raw[|raw| - 1]];
      CleanedMembers(raw[..|raw| - 1], p);
    }
  }

  lemma {:induction false} CleanedConcat(a: seq<string>, b: seq<string>)
    ensures Cleaned(a + b) == Cleaned(a) + Cleaned(b)
  {
    if b == [] {
      assert a + b == a;
    } else {
      var last := b[|b| - 1];
      assert (a + b)[..|a + b| - 1] == a + b[..|b| - 1] && (a + b)[|a + b| - 1] == last;
      CleanedConcat(a, b[..|b| - 1]);
    }
  }

  /** Clean lists: what cleaning leaves, and leaves as it is. */
  ghost predicate IsClean(list: seq<string>) {
    forall p :: p in list ==> p != "" && Clean1(p) == p && Absolute(p)
  }

  lemma CleanedIsClean(raw: seq<string>)
    requires AllAbsolute(raw)
    ensures IsClean(Cleaned(raw))
  {
    forall p | p in Cleaned(raw) ensures p != "" && Clean1(p) == p && Absolute(p) {
      CleanedMembers(raw, p);
      var r :| r in raw && Clean1(r) == p;
      TrimIdempotent(r, GoSpace);
    }
  }

  lemma CleanInit(list: seq<string>)
    requires IsClean(list) && list != []
    ensures var init, last := list[..|list| - 1], list[|list| - 1];
            list == init + [last] && IsClean(init) && last != "" && Clean1(last) == last && Absolute(last)
  {
    var init, last := list[..|list| - 1], list[|list| - 1];
    assert last in list;
    forall p | p in init ensures p != "" && Clean1(p) == p && Absolute(p) { assert p in list; }
    assert IsClean(init);
  }

  lemma {:induction false} CleanStaysClean(list: seq<string>)
    requires IsClean(list)
    ensures AllAbsolute(list) && Cleaned(list) == list
  {
    if list != [] {
      CleanInit(list);
      CleanStaysClean(list[..|list| - 1]);
    }
  }

  // -------------------------------------------------------------------- the builder

  function Flat(lists: seq<seq<string>>): seq<string> {
    if lists == [] then [] else Flat(lists[..|lists| - 1]) + lists[|lists| - 1]
  }

  function PermArgs(perm: string): seq<ArgSelector> {
    if perm == "read" then [ArgSelector(1, "Equal", ["4"])]
    else if perm == "write" then [ArgSelector(1, "Equal", ["2"])]
    else []
  }

  function Exceptions(bins: seq<string>): seq<BinarySelector> {
    if bins == [] then [] else [BinarySelector("NotIn", bins)]
  }

  function FileSelector(op: string, paths: seq<string>, perm: string, bins: seq<string>, action: string): Selector {
    Selector(Exceptions(bins), [ArgSelector(0, op, paths)] + PermArgs(perm), [action])
  }

  /** A permission that narrows. */
  predicate Specific(perm: string) { perm != "" && perm != "all" }

  /** The one exclusion set of a whitelist: all paths, all exceptions, and the first
      specific permission. */
  datatype Exclusion = Exclusion(paths: seq<string>, bins: seq<string>, permission: string)

  function ExclusionOf(rules: seq<FileRule>): Built<Exclusion> {
    if rules == [] then Ok(Exclusion([], [], ""))
    else
      var r := rules[|rules| - 1];
      match ExclusionOf(rules[..|rules| - 1])
      case Err(e) => Err(e)
      case Ok(x) =>
        if !AllAbsolute(r.paths) then Err(RelativePath)
        else if !AllAbsolute(r.exceptBinaries) then Err(RelativeException)
        else Ok(Exclusion(x.paths + Cleaned(r.paths), x.bins + Cleaned(r.exceptBinaries),
                          if x.permission == "" && Specific(r.permission) then r.permission else x.permission))
  }

  function WhitelistSelectors(rules: seq<FileRule>, action: string): Built<seq<Selector>> {
    match ExclusionOf(rules)
    case Err(e) => Err(e)
    case Ok(x) =>
      if x.paths == [] then (if x.bins == [] then Ok([]) else Err(ExceptionsAlone))
      else Ok([FileSelector("NotPrefix", x.paths, x.permission, x.bins, action)])
  }

  /** The selector of one blacklist rule; a rule without paths has none, and then its
      exceptions are not looked at. */
  function RuleSelectors(r: FileRule, action: string): Built<seq<Selector>> {
    if !AllAbsolute(r.paths) then Err(RelativePath)
    else if Cleaned(r.paths) == [] then Ok([])
    else if !AllAbsolute(r.exceptBinaries) then Err(RelativeException)
    else Ok([FileSelector("Prefix", Cleaned(r.paths), r.permission, Cleaned(r.exceptBinaries), action)])
  }

  function BlacklistSelectors(rules: seq<FileRule>, action: string): Built<seq<Selector>> {
    if rules == [] then Ok([])
    else
      match BlacklistSelectors(rules[..|rules| - 1], action)
      case Err(e) => Err(e)
      case Ok(sels) =>
        match RuleSelectors(rules[|rules| - 1], action)
        case Err(e) => Err(e)
        case Ok(more) => Ok(sels + more)
  }

  function FileSelectors(form: Form, action: string): Built<seq<Selector>> {
    if form.fileMode == "whitelist" then WhitelistSelectors(form.file, action) else BlacklistSelectors(form.file, action)
  }

  function ProcessOperator(form: Form): string {
    if form.processMode == "blacklist" then "Equal" else "NotEqual"
  }

  function ProcessProbes(op: string, bins: seq<string>, action: string): seq<KProbe> {
    if bins == [] then []
    else [KProbe(EXECVE, true, [KProbeArg(0, "string")], [Selector([], [ArgSelector(0, op, bins)], [action])])]
  }

  function FileProbes(sels: seq<Selector>): seq<KProbe> {
    if sels == [] then []
    else [KProbe(FILE_PERMISSION, false, [KProbeArg(0, "file"), KProbeArg(1, "int")], sels)]
  }

  function PolicyOf(form: Form, kprobes: seq<KProbe>): Policy {
    Policy("cilium.io/v1alpha1", if form.namespace != "" then "TracingPolicyNamespaced" else "TracingPolicy",
           form.name, form.namespace, form.podSelector, kprobes)
  }

  predicate HasNetworkRules(form: Form) {
    || (exists a :: a in form.network && Clean1(a) != "")
    || (exists p :: p in form.networkPorts && Clean1(p) != "")
  }

  function Build(form: Form, action: string): (r: Built<Policy>) {
    var raw := Flat(form.process);
    if !AllAbsolute(raw) then Err(RelativeBinary)
    else
      match FileSelectors(form, action)
      case Err(e) => Err(e)
      case Ok(sels) =>
        if HasNetworkRules(form) then Err(NetworkRules)
        else
          var kprobes := ProcessProbes(ProcessOperator(form), Cleaned(raw), action) + FileProbes(sels);
          if kprobes == [] then Err(NoRules) else Ok(PolicyOf(form, kprobes))
  }

  // ------------------------------------------------------------- what a form means

  /** The list names this path. */
  ghost predicate Names(raw: seq<string>, path: string) {
    path != "" && exists r :: r in raw && Trim(r, GoSpace) == path
  }

  ghost predicate NamesSomething(raw: seq<string>) {
    exists r :: r in raw && Trim(r, GoSpace) != ""
  }

  /** The list names a prefix of this path. */
  ghost predicate Covers(raw: seq<string>, path: string) {
    exists r :: r in raw && Trim(r, GoSpace) != "" && Trim(r, GoSpace) <= path
  }

  predicate Permits(perm: string, access: string) {
    (perm == "read" ==> access == "4") && (perm == "write" ==> access == "2")
  }

  ghost predicate RuleSaysBlock(r: FileRule, ev: Event)
    requires ev.FileAccess?
  {
    Covers(r.paths, ev.path) && !Names(r.exceptBinaries, ev.binary) && Permits(r.permission, ev.access)
  }

  /** The permission of a list of rules: the first specific one. */
  ghost predicate IsFirstSpecific(rules: seq<FileRule>, perm: string) {
    if forall r :: r in rules ==> !Specific(r.permission) then perm == ""
    else exists i :: 0 <= i < |rules| && rules[i].permission == perm && Specific(perm)
           && forall j :: 0 <= j < i ==> !Specific(rules[j].permission)
  }

  ghost predicate FormTriggers(form: Form, ev: Event) {
    match ev
    case Exec(path, _) =>
      var listed := exists bins :: bins in form.process && Names(bins, path);
      if form.processMode == "blacklist" then listed
      else (exists bins :: bins in form.process && NamesSomething(bins)) && !listed
    case FileAccess(path, access, binary) =>
      if form.fileMode == "whitelist" then
        && (exists r :: r in form.file && NamesSomething(r.paths))
        && (forall r :: r in form.file ==> !Covers(r.paths, path))
        && (forall r :: r in form.file ==> !Names(r.exceptBinaries, binary))
        && (exists perm :: IsFirstSpecific(form.file, perm) && Permits(perm, access))
      else exists r :: r in form.file && RuleSaysBlock(r, ev)
    case Elsewhere(_, _) => false
  }

  // --------------------------------------------------- the builder means the form

  lemma CleanedMeaning(raw: seq<string>, path: string)
    ensures path in Cleaned(raw) <==> Names(raw, path)
    ensures Under(path, Cleaned(raw)) <==> Covers(raw, path)
    ensures Cleaned(raw) != [] <==> NamesSomething(raw)
  {
    CleanedMembers(raw, path);
    if p :| p in Cleaned(raw) && p <= path { CleanedMembers(raw, p); }
    if r :| r in raw && Clean1(r) != "" && Clean1(r) <= path {
      CleanedMembers(raw, Clean1(r));
      assert Clean1(r) in Cleaned(raw);
    }
    if Cleaned(raw) != [] { CleanedMembers(raw, Cleaned(raw)[0]); assert Cleaned(raw)[0] in Cleaned(raw); }
    if r :| r in raw && Clean1(r) != "" { CleanedMembers(raw, Clean1(r)); }
  }

  lemma {:induction false} FlatMembers(lists: seq<seq<string>>, p: string)
    ensures p in Flat(lists) <==> exists l :: l in lists && p in l
  {
    if lists != [] {
      assert lists == lists[..|lists| - 1] + [lists[|lists| - 1]];
      FlatMembers(lists[..|lists| - 1], p);
    }
  }

  lemma FlatNames(lists: seq<seq<string>>, path: string)
    ensures Names(Flat(lists), path) <==> exists l :: l in lists && Names(l, path)
    ensures NamesSomething(Flat(lists)) <==> exists l :: l in lists && NamesSomething(l)
  {
    forall r ensures r in Flat(lists) <==> exists l :: l in lists && r in l { FlatMembers(lists, r); }
  }

  lemma FileSelectorMatches(op: string, paths: seq<string>, perm: string, bins: seq<string>, action: string, ev: Event)
    requires ev.FileAccess? && op in {"Prefix", "NotPrefix"}
    ensures SelectorMatches(FileSelector(op, paths, perm, bins, action), ev)
       <==> (op == "Prefix" <==> Under(ev.path, paths)) && ev.binary !in bins && Permits(perm, ev.access)
  {
    var s := FileSelector(op, paths, perm, bins, action);
    assert s.matchArgs[0] in s.matchArgs;
    if PermArgs(perm) != [] { assert s.matchArgs[1] == PermArgs(perm)[0] && s.matchArgs[1] in s.matchArgs; }
    if bins != [] { assert s.matchBinaries[0] in s.matchBinaries; }
  }

  /** The exclusion set holds what some rule names, and nothing else. */
  lemma {:induction false} ExclusionMeaning(rules: seq<FileRule>, p: string)
    requires ExclusionOf(rules).Ok?
    ensures var x := ExclusionOf(rules).value;
            && (p in x.paths <==> exists r :: r in rules && Names(r.paths, p))
            && (p in x.bins <==> exists r :: r in rules && Names(r.exceptBinaries, p))
  {
    if rules != [] {
      var init, r := rules[..|rules| - 1], rules[|rules| - 1];
      assert rules == init + [r];
      ExclusionMeaning(init, p);
      CleanedMeaning(r.paths, p);
      CleanedMeaning(r.exceptBinaries, p);
    }
  }

  lemma {:induction false} ExclusionPermission(rules: seq<FileRule>)
    requires ExclusionOf(rules).Ok?
    ensures IsFirstSpecific(rules, ExclusionOf(rules).value.permission)
  {
    if rules != [] {
      var init, r := rules[..|rules| - 1], rules[|rules| - 1];
      assert rules == init + [r];
      ExclusionPermission(init);
      FirstSpecificStep(init, r, ExclusionOf(init).value.permission);
    }
  }

  lemma FirstSpecificStep(init: seq<FileRule>, r: FileRule, perm: string)
    requires IsFirstSpecific(init, perm)
    ensures IsFirstSpecific(init + [r], if perm == "" && Specific(r.permission) then r.permission else perm)
  {
    var rules := init + [r];
    if perm != "" {
      var i :| 0 <= i < |init| && init[i].permission == perm && Specific(perm) && forall j :: 0 <= j < i ==> !Specific(init[j].permission);
      assert rules[i] == init[i] && rules[i] in rules;
      forall j | 0 <= j < i ensures !Specific(rules[j].permission) { assert rules[j] == init[j]; }
    } else {
      assert forall x :: x in init ==> !Specific(x.permission);
      if Specific(r.permission) {
        assert rules[|init|] == r && r in rules;
        forall j | 0 <= j < |init| ensures !Specific(rules[j].permission) { assert rules[j] == init[j] && init[j] in init; }
      }
    }
  }

  lemma FirstSpecificUnique(rules: seq<FileRule>, a: string, b: string)
    requires IsFirstSpecific(rules, a) && IsFirstSpecific(rules, b)
    ensures a == b
  {
    if !(forall r :: r in rules ==> !Specific(r.permission)) {
      var i :| 0 <= i < |rules| && rules[i].permission == a && Specific(a) && forall j :: 0 <= j < i ==> !Specific(rules[j].permission);
      var k :| 0 <= k < |rules| && rules[k].permission == b && Specific(b) && forall j :: 0 <= j < k ==> !Specific(rules[j].permission);
      assert i == k;
    }
  }

  lemma ExclusionCovers(rules: seq<FileRule>, path: string)
    requires ExclusionOf(rules).Ok?
    ensures Under(path, ExclusionOf(rules).value.paths) <==> exists r :: r in rules && Covers(r.paths, path)
    ensures ExclusionOf(rules).value.paths != [] <==> exists r :: r in rules && NamesSomething(r.paths)
  {
    var x := ExclusionOf(rules).value;
    forall p ensures p in x.paths <==> exists r :: r in rules && Names(r.paths, p) { ExclusionMeaning(rules, p); }
    if r :| r in rules && Covers(r.paths, path) {
      var q :| q in r.paths && Clean1(q) != "" && Clean1(q) <= path;
      assert Names(r.paths, Clean1(q)) && Clean1(q) in x.paths;
    }
    if r :| r in rules && NamesSomething(r.paths) {
      var q :| q in r.paths && Clean1(q) != "";
      assert Names(r.paths, Clean1(q)) && Clean1(q) in x.paths;
    }
    if p :| p in x.paths && p <= path { assert exists r :: r in rules && Names(r.paths, p); }
    if x.paths != [] { assert x.paths[0] in x.paths; }
  }

  lemma WhitelistMeaning(form: Form, action: string, ev: Event)
    requires form.fileMode == "whitelist" && ev.FileAccess? && FileSelectors(form, action).Ok?
    ensures AnyMatches(FileSelectors(form, action).value, ev) <==> FormTriggers(form, ev)
  {
    var x := ExclusionOf(form.file).value;
    ExclusionCovers(form.file, ev.path);
    ExclusionMeaning(form.file, ev.binary);
    ExclusionPermission(form.file);
    if x.paths != [] {
      var s := FileSelector("NotPrefix", x.paths, x.permission, x.bins, action);
      AnyMatchesOne(s, ev);
      FileSelectorMatches("NotPrefix", x.paths, x.permission, x.bins, action, ev);
      assert Permits(x.permission, ev.access)
        <==> exists perm :: IsFirstSpecific(form.file, perm) && Permits(perm, ev.access) by
      {
        if perm :| IsFirstSpecific(form.file, perm) && Permits(perm, ev.access) {
          FirstSpecificUnique(form.file, perm, x.permission);
        }
      }
    }
  }

  lemma RuleMeaning(r: FileRule, action: string, ev: Event)
    requires ev.FileAccess? && RuleSelectors(r, action).Ok?
    ensures AnyMatches(RuleSelectors(r, action).value, ev) <==> RuleSaysBlock(r, ev)
  {
    CleanedMeaning(r.paths, ev.path);
    CleanedMeaning(r.exceptBinaries, ev.binary);
    if Cleaned(r.paths) != [] {
      AnyMatchesOne(FileSelector("Prefix", Cleaned(r.paths), r.permission, Cleaned(r.exceptBinaries), action), ev);
      FileSelectorMatches("Prefix", Cleaned(r.paths), r.permission, Cleaned(r.exceptBinaries), action, ev);
    }
  }

  lemma {:induction false} BlacklistMeaning(rules: seq<FileRule>, action: string, ev: Event)
    requires ev.FileAccess? && BlacklistSelectors(rules, action).Ok?
    ensures AnyMatches(BlacklistSelectors(rules, action).value, ev) <==> exists r :: r in rules && RuleSaysBlock(r, ev)
  {
    if rules != [] {
      var init, r := rules[..|rules| - 1], rules[|rules| - 1];
      assert rules == init + [r];
      BlacklistMeaning(init, action, ev);
      RuleMeaning(r, action, ev);
      AnyMatchesConcat(BlacklistSelectors(init, action).value, RuleSelectors(r, action).value, ev);
    }
  }

  lemma ProcessMeaning(form: Form, action: string, ev: Event)
    requires ev.Exec?
    ensures var bins := Cleaned(Flat(form.process));
            var s := Selector([], [ArgSelector(0, ProcessOperator(form), bins)], [action]);
            bins != [] && AnyMatches([s], ev) <==> FormTriggers(form, ev)
  {
    var bins := Cleaned(Flat(form.process));
    var s := Selector([], [ArgSelector(0, ProcessOperator(form), bins)], [action]);
    CleanedMeaning(Flat(form.process), ev.path);
    FlatNames(form.process, ev.path);
    AnyMatchesOne(s, ev);
    assert s.matchArgs[0] in s.matchArgs;
  }

  lemma ProbesTrigger(form: Form, op: string, bins: seq<string>, sels: seq<Selector>, action: string, ev: Event)
    ensures var p := PolicyOf(form, ProcessProbes(op, bins, action) + FileProbes(sels));
            Triggers(p, ev) <==>
              || (ev.Call() == EXECVE && bins != [] && AnyMatches([Selector([], [ArgSelector(0, op, bins)], [action])], ev))
              || (ev.Call() == FILE_PERMISSION && AnyMatches(sels, ev))
  {
    var p := PolicyOf(form, ProcessProbes(op, bins, action) + FileProbes(sels));
    if bins != [] {
      var kp := ProcessProbes(op, bins, action)[0];
      assert kp in p.kprobes && kp.args[0] in kp.args;
    }
    if sels != [] {
      var kp := FileProbes(sels)[0];
      assert kp in p.kprobes && kp.args[0] in kp.args && kp.args[1] in kp.args;
    }
  }

  lemma {:induction false} BlacklistReadsArgs(rules: seq<FileRule>, action: string)
    requires BlacklistSelectors(rules, action).Ok?
    ensures forall s :: s in BlacklistSelectors(rules, action).value ==> s.matchArgs != []
  {
    if rules != [] { BlacklistReadsArgs(rules[..|rules| - 1], action); }
  }

  lemma NothingElsewhere(sels: seq<Selector>, ev: Event)
    requires ev.Elsewhere? && forall s :: s in sels ==> s.matchArgs != []
    ensures !AnyMatches(sels, ev)
  {
    forall s | s in sels ensures !SelectorMatches(s, ev) {
      assert s.matchArgs[0] in s.matchArgs;
    }
  }

  /** The rules of a built policy trigger exactly when those of the form say so. */
  lemma RulesMeanForm(form: Form, action: string, ev: Event)
    requires Build(form, action).Ok?
    ensures Triggers(Build(form, action).value, ev) <==> FormTriggers(form, ev)
  {
    var sels := FileSelectors(form, action).value;
    var bins := Cleaned(Flat(form.process));
    ProbesTrigger(form, ProcessOperator(form), bins, sels, action, ev);
    match ev
    case Exec(_, _) => ProcessMeaning(form, action, ev);
    case FileAccess(_, _, _) =>
      if form.fileMode == "whitelist" {
        WhitelistMeaning(form, action, ev);
      } else {
        BlacklistMeaning(form.file, action, ev);
      }
    case Elsewhere(_, _) =>
      if form.fileMode != "whitelist" { BlacklistReadsArgs(form.file, action); }
      NothingElsewhere(sels, ev);
      NothingElsewhere([Selector([], [ArgSelector(0, ProcessOperator(form), bins)], [action])], ev);
  }

  /** The pods a form is about: those of its namespace, or of every namespace when it
      names none, that carry all its labels. */
  predicate FormAppliesTo(form: Form, pod: Pod) {
    (form.namespace == "" || pod.namespace == form.namespace) && Carries(pod, form.podSelector)
  }

  /** A built policy triggers, pod by pod and event by event, exactly when the form says
      so. */
  lemma BuildMeansForm(form: Form, action: string, pod: Pod, ev: Event)
    requires Build(form, action).Ok?
    ensures TriggersIn(Build(form, action).value, pod, ev) <==> FormAppliesTo(form, pod) && FormTriggers(form, ev)
  {
    RulesMeanForm(form, action, ev);
    assert |"TracingPolicy"| != |"TracingPolicyNamespaced"|;
  }

  /** The policy's header: namespaced exactly when the form names a namespace. */
  lemma BuiltHeader(form: Form, action: string)
    requires Build(form, action).Ok?
    ensures var p := Build(form, action).value;
            && p.name == form.name && p.namespace == form.namespace && p.podSelector == form.podSelector
            && (p.kind == "TracingPolicyNamespaced" <==> form.namespace != "")
            && (p.kind == "TracingPolicy" <==> form.namespace == "")
  {
    assert |"TracingPolicy"| != |"TracingPolicyNamespaced"|;
  }

  // ------------------------------------------------------------- actions and errors

  /** Every selector acts, with the one action asked for. */
  ghost predicate ActsWith(sels: seq<Selector>, action: string) {
    forall s :: s in sels ==> s.matchActions == [action]
  }

  lemma {:induction false} BlacklistActs(rules: seq<FileRule>, action: string)
    requires BlacklistSelectors(rules, action).Ok?
    ensures ActsWith(BlacklistSelectors(rules, action).value, action)
  {
    if rules != [] { BlacklistActs(rules[..|rules| - 1], action); }
  }

  /** A built policy has at most one probe of each kind, none empty, and every selector of
      it takes the action asked for and no other. */
  lemma BuiltActs(form: Form, action: string)
    requires Build(form, action).Ok?
    ensures var kps := Build(form, action).value.kprobes;
            && 1 <= |kps| <= 2 && (|kps| == 2 ==> kps[0].call == EXECVE && kps[1].call == FILE_PERMISSION)
            && forall kp :: kp in kps ==> kp.call in {EXECVE, FILE_PERMISSION} && kp.selectors != [] && ActsWith(kp.selectors, action)
  {
    var sels := FileSelectors(form, action).value;
    FileActs(form, action);
    ProbesAct(ProcessOperator(form), Cleaned(Flat(form.process)), sels, action);
  }

  lemma FileActs(form: Form, action: string)
    requires FileSelectors(form, action).Ok?
    ensures ActsWith(FileSelectors(form, action).value, action)
  {
    if form.fileMode != "whitelist" { BlacklistActs(form.file, action); }
  }

  lemma ProbesAct(op: string, bins: seq<string>, sels: seq<Selector>, action: string)
    requires ActsWith(sels, action)
    ensures var kps := ProcessProbes(op, bins, action) + FileProbes(sels);
            && |kps| <= 2 && (|kps| == 2 ==> kps[0].call == EXECVE && kps[1].call == FILE_PERMISSION)
            && forall kp :: kp in kps ==> kp.call in {EXECVE, FILE_PERMISSION} && kp.selectors != [] && ActsWith(kp.selectors, action)
  {
    var a, b := ProcessProbes(op, bins, action), FileProbes(sels);
    forall kp: KProbe | kp in a + b ensures kp.call in {EXECVE, FILE_PERMISSION} && kp.selectors != [] && ActsWith(kp.selectors, action) {
      assert kp in a || kp in b;
    }
  }

  /** The entry says something, and not from the root. */
  ghost predicate IsRelative(p: string) { Trim(p, GoSpace) != "" && Trim(p, GoSpace)[0] != '/' }

  /** What is wrong with a file rule. The exceptions of a blacklist rule without a path
      are not looked at. */
  ghost predicate HasFault(r: FileRule, mode: string, e: BuildError) {
    if exists p :: p in r.paths && IsRelative(p) then e == RelativePath
    else
      && e == RelativeException
      && (exists b :: b in r.exceptBinaries && IsRelative(b))
      && (mode == "whitelist" || NamesSomething(r.paths))
  }

  ghost predicate Faulty(r: FileRule, mode: string) {
    HasFault(r, mode, RelativePath) || HasFault(r, mode, RelativeException)
  }

  ghost predicate FirstFault(rules: seq<FileRule>, mode: string, e: BuildError) {
    exists i :: 0 <= i < |rules| && HasFault(rules[i], mode, e) && forall j :: 0 <= j < i ==> !Faulty(rules[j], mode)
  }

  lemma FirstFaultStep(init: seq<FileRule>, r: FileRule, mode: string, e: BuildError)
    ensures FirstFault(init + [r], mode, e)
       <==> FirstFault(init, mode, e) || ((forall x :: x in init ==> !Faulty(x, mode)) && HasFault(r, mode, e))
  {
    var rules := init + [r];
    if i :| 0 <= i < |init| && HasFault(init[i], mode, e) && forall j :: 0 <= j < i ==> !Faulty(init[j], mode) {
      assert HasFault(rules[i], mode, e) && forall j :: 0 <= j < i ==> rules[j] == init[j];
    }
    if (forall x :: x in init ==> !Faulty(x, mode)) && HasFault(r, mode, e) {
      assert rules[|init|] == r && forall j :: 0 <= j < |init| ==> rules[j] == init[j] && init[j] in init;
    }
    if i :| 0 <= i < |rules| && HasFault(rules[i], mode, e) && forall j :: 0 <= j < i ==> !Faulty(rules[j], mode) {
      if i < |init| {
        assert rules[i] == init[i] && forall j :: 0 <= j < i ==> rules[j] == init[j];
      } else {
        assert forall j :: 0 <= j < |init| ==> rules[j] == init[j];
      }
    }
  }

  lemma FaultsAre(r: FileRule, mode: string, e: BuildError)
    ensures HasFault(r, mode, e)
       <==> if !AllAbsolute(r.paths) then e == RelativePath
            else e == RelativeException && !AllAbsolute(r.exceptBinaries) && (mode == "whitelist" || Cleaned(r.paths) != [])
  {
    forall p ensures IsRelative(p) <==> !(Clean1(p) == "" || Absolute(Clean1(p))) { RelativeExactly(p); }
    CleanedMeaning(r.paths, "");
  }

  lemma {:induction false} ExclusionFaults(rules: seq<FileRule>, e: BuildError)
    ensures ExclusionOf(rules) == Err(e) <==> FirstFault(rules, "whitelist", e)
    ensures ExclusionOf(rules).Ok? <==> forall r :: r in rules ==> !Faulty(r, "whitelist")
  {
    if rules != [] {
      var init, r := rules[..|rules| - 1], rules[|rules| - 1];
      assert rules == init + [r];
      ExclusionFaults(init, e);
      FirstFaultStep(init, r, "whitelist", e);
      FaultsAre(r, "whitelist", e);
      FaultsAre(r, "whitelist", RelativePath);
      FaultsAre(r, "whitelist", RelativeException);
      assert Faulty(r, "whitelist") <==> !AllAbsolute(r.paths) || !AllAbsolute(r.exceptBinaries);
      assert (forall x :: x in rules ==> !Faulty(x, "whitelist"))
        <==> (forall x :: x in init ==> !Faulty(x, "whitelist")) && !Faulty(r, "whitelist");
    }
  }

  lemma RuleFaults(r: FileRule, action: string, e: BuildError)
    ensures RuleSelectors(r, action) == Err(e) <==> HasFault(r, "blacklist", e)
    ensures RuleSelectors(r, action).Ok? <==> !Faulty(r, "blacklist")
  {
    FaultsAre(r, "blacklist", e);
    FaultsAre(r, "blacklist", RelativePath);
    FaultsAre(r, "blacklist", RelativeException);
    assert "blacklist"[0] == 'b' && "whitelist"[0] == 'w';
  }

  lemma {:induction false} BlacklistFaults(rules: seq<FileRule>, action: string, e: BuildError)
    ensures BlacklistSelectors(rules, action) == Err(e) <==> FirstFault(rules, "blacklist", e)
    ensures BlacklistSelectors(rules, action).Ok? <==> forall r :: r in rules ==> !Faulty(r, "blacklist")
  {
    if rules != [] {
      var init, r := rules[..|rules| - 1], rules[|rules| - 1];
      assert rules == init + [r];
      BlacklistFaults(init, action, e);
      FirstFaultStep(init, r, "blacklist", e);
      RuleFaults(r, action, e);
    }
  }

  ghost predicate AnyRelative(lists: seq<seq<string>>) {
    exists l, p :: l in lists && p in l && IsRelative(p)
  }

  ghost predicate AnyNamed(lists: seq<seq<string>>) { exists l :: l in lists && NamesSomething(l) }

  ghost predicate AnyPath(rules: seq<FileRule>) { exists r :: r in rules && NamesSomething(r.paths) }

  ghost predicate AnyException(rules: seq<FileRule>) { exists r :: r in rules && NamesSomething(r.exceptBinaries) }

  ghost predicate AnyFault(rules: seq<FileRule>, mode: string) { exists r :: r in rules && Faulty(r, mode) }

  function ModeName(form: Form): string { if form.fileMode == "whitelist" then "whitelist" else "blacklist" }

  /** Why a form does not build: the source's checks in its order, said of the form. */
  ghost predicate FailsBy(form: Form, e: BuildError) {
    if AnyRelative(form.process) then e == RelativeBinary
    else if AnyFault(form.file, ModeName(form)) then FirstFault(form.file, ModeName(form), e)
    else if ModeName(form) == "whitelist" && !AnyPath(form.file) && AnyException(form.file) then e == ExceptionsAlone
    else if NamesSomething(form.network) || NamesSomething(form.networkPorts) then e == NetworkRules
    else e == NoRules && !AnyNamed(form.process) && !AnyPath(form.file)
  }

  lemma RelativeExactly(p: string)
    ensures IsRelative(p) <==> !(Clean1(p) == "" || Absolute(Clean1(p)))
  {
  }

  lemma FlatRelative(lists: seq<seq<string>>)
    ensures AllAbsolute(Flat(lists)) <==> !AnyRelative(lists)
  {
    forall p ensures p in Flat(lists) <==> exists l :: l in lists && p in l { FlatMembers(lists, p); }
    if l, p :| l in lists && p in l && IsRelative(p) {
      RelativeExactly(p);
      assert p in Flat(lists);
    }
    if p :| p in Flat(lists) && !(Clean1(p) == "" || Absolute(Clean1(p))) {
      RelativeExactly(p);
      var l :| l in lists && p in l;
      assert IsRelative(p);
    }
  }

  lemma FlatSays(lists: seq<seq<string>>)
    ensures AllAbsolute(Flat(lists)) <==> !AnyRelative(lists)
    ensures Cleaned(Flat(lists)) != [] <==> AnyNamed(lists)
  {
    FlatRelative(lists);
    CleanedMeaning(Flat(lists), "");
    FlatNames(lists, "");
  }

  lemma FileFaults(form: Form, action: string, e: BuildError)
    ensures var mode, sels := ModeName(form), FileSelectors(form, action);
            if AnyFault(form.file, mode) then sels.Err? && (sels == Err(e) <==> FirstFault(form.file, mode, e))
            else if mode == "whitelist" && !AnyPath(form.file) && AnyException(form.file) then sels == Err(ExceptionsAlone)
            else sels.Ok? && (sels.value != [] <==> AnyPath(form.file))
  {
    if form.fileMode == "whitelist" {
      ExclusionFaults(form.file, e);
      if ExclusionOf(form.file).Ok? {
        ExclusionCovers(form.file, "");
        ExclusionExceptions(form.file);
      }
    } else {
      BlacklistFaults(form.file, action, e);
      BlacklistBuilds(form.file, action);
      forall r | r in form.file ensures Cleaned(r.paths) != [] <==> NamesSomething(r.paths) { CleanedMeaning(r.paths, ""); }
    }
  }

  lemma ExclusionExceptions(rules: seq<FileRule>)
    requires ExclusionOf(rules).Ok?
    ensures ExclusionOf(rules).value.bins != [] <==> exists r :: r in rules && NamesSomething(r.exceptBinaries)
  {
    var x := ExclusionOf(rules).value;
    forall p ensures p in x.bins <==> exists r :: r in rules && Names(r.exceptBinaries, p) { ExclusionMeaning(rules, p); }
    if x.bins != [] { assert x.bins[0] in x.bins; }
    if r :| r in rules && NamesSomething(r.exceptBinaries) {
      var q :| q in r.exceptBinaries && Clean1(q) != "";
      assert Names(r.exceptBinaries, Clean1(q)) && Clean1(q) in x.bins;
    }
  }

  /** A form fails with exactly the error that the first violated rule names, and builds
      exactly when none is violated. */
  lemma BuildFailsExactly(form: Form, action: string, e: BuildError)
    ensures Build(form, action) == Err(e) <==> FailsBy(form, e)
  {
    FlatSays(form.process);
    FileFaults(form, action, e);
    if AllAbsolute(Flat(form.process)) {
      var sels := FileSelectors(form, action);
      if sels.Ok? { LastChecks(form, action, e); } else { assert Build(form, action) == Err(sels.error); }
    }
  }

  lemma LastChecks(form: Form, action: string, e: BuildError)
    requires AllAbsolute(Flat(form.process)) && FileSelectors(form, action).Ok?
    ensures Build(form, action) == Err(e)
       <==> if NamesSomething(form.network) || NamesSomething(form.networkPorts) then e == NetworkRules
            else e == NoRules && Cleaned(Flat(form.process)) == [] && FileSelectors(form, action).value == []
  {
    assert HasNetworkRules(form) <==> NamesSomething(form.network) || NamesSomething(form.networkPorts);
  }

  // -------------------------------------------------------- switching the file mode

  /** filter(Boolean) */
  function NonEmpty(list: seq<string>): seq<string> {
    if list == [] then []
    else
      var r := NonEmpty(list[..|list| - 1]);
      if list[|list| - 1] == "" then r else r + [list[|list| - 1]]
  }

  function FlatPaths(rules: seq<FileRule>): seq<string> {
    if rules == [] then [] else FlatPaths(rules[..|rules| - 1]) + rules[|rules| - 1].paths
  }

  function FlatExceptions(rules: seq<FileRule>): seq<string> {
    if rules == [] then [] else FlatExceptions(rules[..|rules| - 1]) + rules[|rules| - 1].exceptBinaries
  }

  function FirstSpecific(rules: seq<FileRule>): string {
    if rules == [] then ""
    else
      var perm := FirstSpecific(rules[..|rules| - 1]);
      if perm == "" && Specific(rules[|rules| - 1].permission) then rules[|rules| - 1].permission else perm
  }

  function OnePathRules(paths: seq<string>, r: FileRule): seq<FileRule> {
    if paths == [] then []
    else OnePathRules(paths[..|paths| - 1], r) + [r.(paths := [paths[|paths| - 1]])]
  }

  function SplitRules(rules: seq<FileRule>): seq<FileRule> {
    if rules == [] then []
    else
      var r := rules[|rules| - 1];
      SplitRules(rules[..|rules| - 1]) + OnePathRules(NonEmpty(r.paths), r)
  }

  /** A whitelist becomes one exclusion set, a blacklist one rule per path. */
  function SetFileMode(form: Form, mode: string): Form {
    if mode == "whitelist" then
      var paths, bins := NonEmpty(FlatPaths(form.file)), NonEmpty(FlatExceptions(form.file));
      var perm := FirstSpecific(form.file);
      form.(fileMode := mode,
            file := if paths == [] && bins == [] then [] else [FileRule(paths, bins, if perm == "" then "all" else perm)])
    else form.(fileMode := mode, file := SplitRules(form.file))
  }

  lemma {:induction false} NonEmptyCleans(list: seq<string>)
    ensures Cleaned(NonEmpty(list)) == Cleaned(list)
    ensures AllAbsolute(NonEmpty(list)) <==> AllAbsolute(list)
    ensures forall p :: p in NonEmpty(list) <==> p in list && p != ""
  {
    if list != [] {
      var init, p := list[..|list| - 1], list[|list| - 1];
      assert list == init + [p];
      NonEmptyCleans(init);
      if p != "" { assert (NonEmpty(init) + [p])[..|NonEmpty(init)|] == NonEmpty(init); }
    }
  }

  /** The exclusion set is what cleaning the concatenated lists gives. */
  lemma {:induction false} ExclusionFlat(rules: seq<FileRule>)
    ensures ExclusionOf(rules).Ok? <==> AllAbsolute(FlatPaths(rules)) && AllAbsolute(FlatExceptions(rules))
    ensures ExclusionOf(rules).Ok? ==>
      ExclusionOf(rules).value == Exclusion(Cleaned(FlatPaths(rules)), Cleaned(FlatExceptions(rules)), FirstSpecific(rules))
  {
    if rules != [] {
      var init, r := rules[..|rules| - 1], rules[|rules| - 1];
      ExclusionFlat(init);
      CleanedConcat(FlatPaths(init), r.paths);
      CleanedConcat(FlatExceptions(init), r.exceptBinaries);
      AbsoluteConcat(FlatPaths(init), r.paths);
      AbsoluteConcat(FlatExceptions(init), r.exceptBinaries);
    }
  }

  lemma AbsoluteConcat(a: seq<string>, b: seq<string>)
    ensures AllAbsolute(a + b) <==> AllAbsolute(a) && AllAbsolute(b)
  {
    assert forall p :: p in a ==> p in a + b;
    assert forall p :: p in b ==> p in a + b;
  }

  lemma {:induction false} FirstSpecificIs(rules: seq<FileRule>)
    ensures FirstSpecific(rules) == "" || Specific(FirstSpecific(rules))
  {
    if rules != [] { FirstSpecificIs(rules[..|rules| - 1]); }
  }

  lemma ExclusionOfOne(r: FileRule)
    ensures ExclusionOf([r]).Ok? <==> AllAbsolute(r.paths) && AllAbsolute(r.exceptBinaries)
    ensures ExclusionOf([r]).Ok? ==>
      ExclusionOf([r]).value
        == Exclusion(Cleaned(r.paths), Cleaned(r.exceptBinaries), if Specific(r.permission) then r.permission else "")
  {
    assert [r][..0] == [];
    assert ExclusionOf([]) == Ok(Exclusion([], [], ""));
    assert [] + Cleaned(r.paths) == Cleaned(r.paths) && [] + Cleaned(r.exceptBinaries) == Cleaned(r.exceptBinaries);
  }

  lemma WhitelistNormalised(form: Form)
    ensures var x, y := ExclusionOf(form.file), ExclusionOf(SetFileMode(form, "whitelist").file);
            && (x.Ok? <==> y.Ok?)
            && (x.Ok? ==> x == y || (x.value.paths == y.value.paths == [] && x.value.bins == y.value.bins == []))
  {
    ExclusionFlat(form.file);
    FirstSpecificIs(form.file);
    var paths, bins := NonEmpty(FlatPaths(form.file)), NonEmpty(FlatExceptions(form.file));
    NonEmptyCleans(FlatPaths(form.file));
    NonEmptyCleans(FlatExceptions(form.file));
    if !(paths == [] && bins == []) {
      ExclusionOfOne(SetFileMode(form, "whitelist").file[0]);
    }
  }

  lemma WhitelistSelectorsNormalised(form: Form, action: string)
    ensures var a, b := WhitelistSelectors(form.file, action), WhitelistSelectors(SetFileMode(form, "whitelist").file, action);
            (a.Ok? <==> b.Ok?) && (a.Ok? ==> a == b)
  {
    WhitelistNormalised(form);
  }

  /** Normalising to a whitelist before building changes nothing about the policy, and
      the two builds fail together. */
  lemma SetWhitelistKeepsPolicy(form: Form, action: string)
    ensures var a, b := Build(form.(fileMode := "whitelist"), action), Build(SetFileMode(form, "whitelist"), action);
            (a.Ok? <==> b.Ok?) && (a.Ok? ==> a == b)
  {
    WhitelistSelectorsNormalised(form, action);
    var f, g := form.(fileMode := "whitelist"), SetFileMode(form, "whitelist");
    assert g == f.(file := g.file);
    SameSelectorsBuild(f, g.file, action);
  }

  /** Build depends on the file rules through their selectors alone. */
  lemma SameSelectorsBuild(f: Form, rules: seq<FileRule>, action: string)
    requires var a, b := FileSelectors(f, action), FileSelectors(f.(file := rules), action);
             (a.Ok? <==> b.Ok?) && (a.Ok? ==> a == b)
    ensures var a, b := Build(f, action), Build(f.(file := rules), action);
            (a.Ok? <==> b.Ok?) && (a.Ok? ==> a == b)
  {
  }

  lemma {:induction false} BlacklistBuilds(rules: seq<FileRule>, action: string)
    ensures BlacklistSelectors(rules, action).Ok? <==> forall r :: r in rules ==> RuleSelectors(r, action).Ok?
    ensures BlacklistSelectors(rules, action).Ok? ==>
              (BlacklistSelectors(rules, action).value != [] <==> exists r :: r in rules && Cleaned(r.paths) != [])
  {
    if rules != [] {
      assert rules == rules[..|rules| - 1] + [rules[|rules| - 1]];
      BlacklistBuilds(rules[..|rules| - 1], action);
    }
  }

  lemma {:induction false} OnePathRulesAre(paths: seq<string>, r: FileRule, x: FileRule)
    ensures x in OnePathRules(paths, r) <==> exists p :: p in paths && x == r.(paths := [p])
  {
    if paths != [] {
      assert paths == paths[..|paths| - 1] + [paths[|paths| - 1]];
      OnePathRulesAre(paths[..|paths| - 1], r, x);
    }
  }

  lemma {:induction false} SplitRulesAre(rules: seq<FileRule>, x: FileRule)
    ensures x in SplitRules(rules) <==> exists r, p :: r in rules && p in r.paths && p != "" && x == r.(paths := [p])
  {
    if rules != [] {
      var r := rules[|rules| - 1];
      assert rules == rules[..|rules| - 1] + [r];
      SplitRulesAre(rules[..|rules| - 1], x);
      OnePathRulesAre(NonEmpty(r.paths), r, x);
      NonEmptyCleans(r.paths);
    }
  }

  lemma CleanedOne(p: string)
    ensures Cleaned([p]) == if Clean1(p) == "" then [] else [Clean1(p)]
  {
    assert [p][..0] == [];
    assert Cleaned([]) == [];
  }

  /** A rule builds exactly when all its one-path rules do, and says block exactly when
      one of them does. */
  lemma RuleIsItsParts(r: FileRule, action: string)
    ensures RuleSelectors(r, action).Ok? <==> forall p :: p in r.paths && p != "" ==> RuleSelectors(r.(paths := [p]), action).Ok?
    ensures Cleaned(r.paths) != [] <==> exists p :: p in r.paths && p != "" && Cleaned([p]) != []
  {
    PathsAreParts(r.paths);
    forall p ensures AllAbsolute([p]) <==> Clean1(p) == "" || Absolute(Clean1(p)) { assert p in [p]; }
    assert Clean1("") == "";
  }

  lemma PathsAreParts(paths: seq<string>)
    ensures Cleaned(paths) != [] <==> exists p :: p in paths && p != "" && Cleaned([p]) != []
  {
    forall p | p in paths ensures Cleaned([p]) == if Clean1(p) == "" then [] else [Clean1(p)] { CleanedOne(p); }
    CleanedMeaning(paths, "");
    assert Clean1("") == "";
  }

  lemma SplitSaysBlock(rules: seq<FileRule>, ev: Event)
    requires ev.FileAccess?
    ensures (exists x :: x in SplitRules(rules) && RuleSaysBlock(x, ev)) <==> exists r :: r in rules && RuleSaysBlock(r, ev)
  {
    if r :| r in rules && RuleSaysBlock(r, ev) {
      var p :| p in r.paths && Trim(p, GoSpace) != "" && Trim(p, GoSpace) <= ev.path;
      assert Trim("", GoSpace) == "";
      SplitRulesAre(rules, r.(paths := [p]));
      assert p in r.(paths := [p]).paths;
      assert RuleSaysBlock(r.(paths := [p]), ev);
    }
    if x :| x in SplitRules(rules) && RuleSaysBlock(x, ev) {
      SplitRulesAre(rules, x);
      var r, p :| r in rules && p in r.paths && p != "" && x == r.(paths := [p]);
      assert RuleSaysBlock(r, ev);
    }
  }

  lemma SplitPaths(rules: seq<FileRule>)
    ensures (exists x :: x in SplitRules(rules) && Cleaned(x.paths) != []) <==> exists r :: r in rules && Cleaned(r.paths) != []
  {
    if r :| r in rules && Cleaned(r.paths) != [] {
      PathsAreParts(r.paths);
      var p :| p in r.paths && p != "" && Cleaned([p]) != [];
      SplitRulesAre(rules, r.(paths := [p]));
    }
    if x :| x in SplitRules(rules) && Cleaned(x.paths) != [] {
      SplitRulesAre(rules, x);
      var r, p :| r in rules && p in r.paths && p != "" && x == r.(paths := [p]);
      PathsAreParts(r.paths);
    }
  }

  lemma SplitBuilds(rules: seq<FileRule>, action: string)
    ensures (forall x :: x in SplitRules(rules) ==> RuleSelectors(x, action).Ok?) <==> forall r :: r in rules ==> RuleSelectors(r, action).Ok?
  {
    if x :| x in SplitRules(rules) && !RuleSelectors(x, action).Ok? {
      SplitRulesAre(rules, x);
      var r, p :| r in rules && p in r.paths && p != "" && x == r.(paths := [p]);
      RuleIsItsParts(r, action);
    }
    if r :| r in rules && !RuleSelectors(r, action).Ok? {
      RuleIsItsParts(r, action);
      var p :| p in r.paths && p != "" && !RuleSelectors(r.(paths := [p]), action).Ok?;
      SplitRulesAre(rules, r.(paths := [p]));
    }
  }

  lemma SplitSelectorsBuild(rules: seq<FileRule>, action: string)
    ensures var a, b := BlacklistSelectors(rules, action), BlacklistSelectors(SplitRules(rules), action);
            (a.Ok? <==> b.Ok?) && (a.Ok? ==> (a.value == [] <==> b.value == []))
  {
    SplitBuilds(rules, action);
    SplitPaths(rules);
    BlacklistBuilds(rules, action);
    BlacklistBuilds(SplitRules(rules), action);
  }

  lemma SplitMeansSame(form: Form, ev: Event)
    ensures FormTriggers(form.(fileMode := "blacklist"), ev) <==> FormTriggers(SetFileMode(form, "blacklist"), ev)
  {
    if ev.FileAccess? { SplitSaysBlock(form.file, ev); }
  }

  lemma SetBlacklistBuilds(form: Form, action: string)
    ensures Build(form.(fileMode := "blacklist"), action).Ok? <==> Build(SetFileMode(form, "blacklist"), action).Ok?
  {
    SplitSelectorsBuild(form.file, action);
  }

  /** Normalising to a blacklist before building keeps what the policy triggers on, and
      the two builds fail together. */
  lemma SetBlacklistKeepsTriggers(form: Form, action: string, pod: Pod, ev: Event)
    ensures var a, b := Build(form.(fileMode := "blacklist"), action), Build(SetFileMode(form, "blacklist"), action);
            (a.Ok? <==> b.Ok?) && (a.Ok? ==> (TriggersIn(a.value, pod, ev) <==> TriggersIn(b.value, pod, ev)))
  {
    SetBlacklistBuilds(form, action);
    SplitMeansSame(form, ev);
    if Build(form.(fileMode := "blacklist"), action).Ok? {
      BuildMeansForm(form.(fileMode := "blacklist"), action, pod, ev);
      BuildMeansForm(SetFileMode(form, "blacklist"), action, pod, ev);
    }
  }

  /** What the section shows, once switched: a whitelist is one rule of all the paths and
      exceptions there were, in order, with the first specific permission; a blacklist is
      a rule for every path, under the permission and exceptions it had. */
  lemma SetFileModeExactly(form: Form, mode: string, x: FileRule)
    ensures var g := SetFileMode(form, mode); g == form.(fileMode := mode, file := g.file)
    ensures mode == "whitelist" ==>
              var file := SetFileMode(form, mode).file;
              (x in file ==> |file| == 1 && IsMergedRule(form.file, x))
              && (file == [] <==> forall r :: r in form.file ==> AllEmpty(r.paths) && AllEmpty(r.exceptBinaries))
    ensures mode != "whitelist" ==>
              (x in SetFileMode(form, mode).file
               <==> exists r, p :: r in form.file && p in r.paths && p != "" && x == FileRule([p], r.exceptBinaries, r.permission))
  {
    SplitRulesAre(form.file, x);
    if mode == "whitelist" {
      FlatEmpty(form.file);
      FirstSpecificExactly(form.file);
    }
  }

  ghost predicate AllEmpty(list: seq<string>) { forall p :: p in list ==> p == "" }

  function NotEmpty(): string -> bool { p => p != "" }

  function PathsOf(): FileRule -> seq<string> { (r: FileRule) => r.paths }

  function ExceptionsOf(): FileRule -> seq<string> { (r: FileRule) => r.exceptBinaries }

  ghost predicate IsMergedRule(rules: seq<FileRule>, x: FileRule) {
    && x.paths == Filtered(Flat(Each(rules, PathsOf())), NotEmpty())
    && x.exceptBinaries == Filtered(Flat(Each(rules, ExceptionsOf())), NotEmpty())
    && exists perm :: IsFirstSpecific(rules, perm) && x.permission == if perm == "" then "all" else perm
  }

  lemma {:induction false} FlatEmpty(rules: seq<FileRule>)
    ensures NonEmpty(FlatPaths(rules)) == Filtered(Flat(Each(rules, PathsOf())), NotEmpty())
    ensures NonEmpty(FlatExceptions(rules)) == Filtered(Flat(Each(rules, ExceptionsOf())), NotEmpty())
    ensures NonEmpty(FlatPaths(rules)) == [] <==> forall r :: r in rules ==> AllEmpty(r.paths)
    ensures NonEmpty(FlatExceptions(rules)) == [] <==> forall r :: r in rules ==> AllEmpty(r.exceptBinaries)
  {
    FlatIs(rules);
    NonEmptyIs(FlatPaths(rules));
    NonEmptyIs(FlatExceptions(rules));
    FlatRuleMembers(rules);
  }

  lemma {:induction false} NonEmptyIs(list: seq<string>)
    ensures NonEmpty(list) == Filtered(list, NotEmpty())
    ensures NonEmpty(list) == [] <==> AllEmpty(list)
  {
    if list != [] {
      assert list == list[..|list| - 1] + [list[|list| - 1]];
      NonEmptyIs(list[..|list| - 1]);
    }
  }

  lemma {:induction false} FlatIs(rules: seq<FileRule>)
    ensures FlatPaths(rules) == Flat(Each(rules, PathsOf())) && FlatExceptions(rules) == Flat(Each(rules, ExceptionsOf()))
  {
    if rules != [] {
      var init := rules[..|rules| - 1];
      FlatIs(init);
      assert Each(rules, PathsOf())[..|rules| - 1] == Each(init, PathsOf());
      assert Each(rules, ExceptionsOf())[..|rules| - 1] == Each(init, ExceptionsOf());
    }
  }

  lemma {:induction false} FlatRuleMembers(rules: seq<FileRule>)
    ensures AllEmpty(FlatPaths(rules)) <==> forall r :: r in rules ==> AllEmpty(r.paths)
    ensures AllEmpty(FlatExceptions(rules)) <==> forall r :: r in rules ==> AllEmpty(r.exceptBinaries)
  {
    if rules != [] {
      var init, last := rules[..|rules| - 1], rules[|rules| - 1];
      assert forall r :: r in rules <==> r in init || r == last by { assert rules == init + [last]; }
      FlatRuleMembers(init);
      AllEmptyConcat(FlatPaths(init), last.paths);
      AllEmptyConcat(FlatExceptions(init), last.exceptBinaries);
    }
  }

  lemma AllEmptyConcat(a: seq<string>, b: seq<string>)
    ensures AllEmpty(a + b) <==> AllEmpty(a) && AllEmpty(b)
  {
    assert forall p :: p in a + b <==> p in a || p in b;
  }

  lemma {:induction false} FirstSpecificExactly(rules: seq<FileRule>)
    ensures IsFirstSpecific(rules, FirstSpecific(rules))
  {
    if rules != [] {
      var init, r := rules[..|rules| - 1], rules[|rules| - 1];
      assert rules == init + [r];
      FirstSpecificExactly(init);
      FirstSpecificStep(init, r, FirstSpecific(init));
    }
  }

  // ------------------------------------------------------------------ the builder

  lemma CleanedStep(raw: seq<string>, i: nat)
    requires i < |raw|
    ensures Cleaned(raw[..i + 1]) == if Clean1(raw[i]) == "" then Cleaned(raw[..i]) else Cleaned(raw[..i]) + [Clean1(raw[i])]
  {
    assert raw[..i + 1][..i] == raw[..i];
  }

  /** cleanPaths: the trimmed entries, or nothing when one is relative. */
  method CleanPaths(raw: seq<string>) returns (out: Option<seq<string>>)
    ensures out == if AllAbsolute(raw) then Some(Cleaned(raw)) else None
  {
    var paths: seq<string> := [];
    for i := 0 to |raw|
      invariant AllAbsolute(raw[..i]) && paths == Cleaned(raw[..i])
    {
      CleanedStep(raw, i);
      assert raw[..i + 1] == raw[..i] + [raw[i]];
      var p := Clean1(raw[i]);
      if p == "" { continue; }
      if !Absolute(p) { return None; }
      paths := paths + [p];
    }
    assert raw[..|raw|] == raw;
    return Some(paths);
  }

  method Whitelist(rules: seq<FileRule>, action: string) returns (r: Built<seq<Selector>>)
    ensures r == WhitelistSelectors(rules, action)
  {
    var allPaths: seq<string>, allBins: seq<string>, permission := [], [], "";
    for i := 0 to |rules|
      invariant ExclusionOf(rules[..i]) == Ok(Exclusion(allPaths, allBins, permission))
    {
      assert rules[..i + 1][..i] == rules[..i];
      var paths := CleanPaths(rules[i].paths);
      if paths.None? { ExclusionFails(rules, i); return Err(RelativePath); }
      allPaths := allPaths + paths.value;
      var bins := CleanPaths(rules[i].exceptBinaries);
      if bins.None? { ExclusionFails(rules, i); return Err(RelativeException); }
      allBins := allBins + bins.value;
      if permission == "" && rules[i].permission != "" && rules[i].permission != "all" { permission := rules[i].permission; }
    }
    assert rules[..|rules|] == rules;
    if allPaths == [] && allBins != [] { return Err(ExceptionsAlone); }
    if allPaths == [] { return Ok([]); }
    return Ok([FileSelector("NotPrefix", allPaths, permission, allBins, action)]);
  }

  /** The first failing rule decides the error. */
  lemma {:induction false} ExclusionFails(rules: seq<FileRule>, i: nat)
    requires i < |rules| && ExclusionOf(rules[..i + 1]).Err?
    ensures ExclusionOf(rules) == ExclusionOf(rules[..i + 1])
    decreases |rules|
  {
    if i + 1 < |rules| {
      var init := rules[..|rules| - 1];
      assert init[..i + 1] == rules[..i + 1];
      ExclusionFails(init, i);
    } else {
      assert rules[..i + 1] == rules;
    }
  }

  method Blacklist(rules: seq<FileRule>, action: string) returns (r: Built<seq<Selector>>)
    ensures r == BlacklistSelectors(rules, action)
  {
    var sels: seq<Selector> := [];
    for i := 0 to |rules|
      invariant BlacklistSelectors(rules[..i], action) == Ok(sels)
    {
      assert rules[..i + 1][..i] == rules[..i];
      var paths := CleanPaths(rules[i].paths);
      if paths.None? { BlacklistFails(rules, i, action); return Err(RelativePath); }
      if paths.value == [] {
        assert sels + [] == sels;
        continue;
      }
      var bins := CleanPaths(rules[i].exceptBinaries);
      if bins.None? { BlacklistFails(rules, i, action); return Err(RelativeException); }
      sels := sels + [FileSelector("Prefix", paths.value, rules[i].permission, bins.value, action)];
    }
    assert rules[..|rules|] == rules;
    return Ok(sels);
  }

  lemma {:induction false} BlacklistFails(rules: seq<FileRule>, i: nat, action: string)
    requires i < |rules| && BlacklistSelectors(rules[..i + 1], action).Err?
    ensures BlacklistSelectors(rules, action) == BlacklistSelectors(rules[..i + 1], action)
    decreases |rules|
  {
    if i + 1 < |rules| {
      var init := rules[..|rules| - 1];
      assert init[..i + 1] == rules[..i + 1];
      BlacklistFails(init, i, action);
    } else {
      assert rules[..i + 1] == rules;
    }
  }

  /** The process binaries of all rules, or nothing when one is relative. */
  method Binaries(process: seq<seq<string>>) returns (out: Option<seq<string>>)
    ensures out == if AllAbsolute(Flat(process)) then Some(Cleaned(Flat(process))) else None
  {
    var all: seq<string> := [];
    for i := 0 to |process|
      invariant AllAbsolute(Flat(process[..i])) && all == Cleaned(Flat(process[..i]))
    {
      assert process[..i + 1][..i] == process[..i];
      var bins := CleanPaths(process[i]);
      if bins.None? {
        FlatMembersOf(process, i);
        return None;
      }
      AbsoluteConcat(Flat(process[..i]), process[i]);
      CleanedConcat(Flat(process[..i]), process[i]);
      all := all + bins.value;
    }
    assert process[..|process|] == process;
    return Some(all);
  }

  lemma FlatMembersOf(lists: seq<seq<string>>, i: nat)
    requires i < |lists|
    ensures forall p :: p in lists[i] ==> p in Flat(lists)
  {
    forall p | p in lists[i] ensures p in Flat(lists) { FlatMembers(lists, p); }
  }

  /** The network sections are refused if they say anything. */
  method AllBlank(list: seq<string>) returns (blank: bool)
    ensures blank <==> forall a :: a in list ==> Clean1(a) == ""
  {
    for i := 0 to |list|
      invariant forall k :: 0 <= k < i ==> Clean1(list[k]) == ""
    {
      if Clean1(list[i]) != "" {
        assert list[i] in list;
        return false;
      }
    }
    return true;
  }

  /** Build, step by step. */
  method BuildPolicy(form: Form, action: string) returns (r: Built<Policy>)
    ensures r == Build(form, action)
  {
    var bins := Binaries(form.process);
    if bins.None? { return Err(RelativeBinary); }
    var kprobes := ProcessProbes(ProcessOperator(form), bins.value, action);
    var sels: Built<seq<Selector>>;
    if form.fileMode == "whitelist" {
      sels := Whitelist(form.file, action);
    } else {
      sels := Blacklist(form.file, action);
    }
    if sels.Err? { return Err(sels.error); }
    kprobes := kprobes + FileProbes(sels.value);
    var noAddress := AllBlank(form.network);
    if !noAddress { return Err(NetworkRules); }
    var noPort := AllBlank(form.networkPorts);
    if !noPort { return Err(NetworkRules); }
    if kprobes == [] { return Err(NoRules); }
    return Ok(PolicyOf(form, kprobes));
  }
}
