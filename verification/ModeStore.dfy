/** The mode switch as it runs (internal/k8s/store.go): the loops over the unstructured
    object, the store's pass over every policy, and what a switch makes of a policy the
    form built. */
module ModeStore {
  import opened Sequences
  import opened Wrappers
  import opened Json
  import opened ModeSwitch
  import opened TracingPolicy
  import opened PolicyBuilder

  // ------------------------------------------------------------------- the loops

  lemma {:induction false} CountConcat(a: seq<J>, b: seq<J>, p: J -> bool)
    ensures Count(a + b, p) == Count(a, p) + Count(b, p)
  {
    if b == [] {
      assert a + b == a;
    } else {
      assert (a + b)[..|a + b| - 1] == a + b[..|b| - 1];
      CountConcat(a, b[..|b| - 1], p);
    }
  }

  /** The Post and Sigkill actions in each element, added up. */
  function Total(items: seq<J>, actionsOf: J -> seq<J>): nat {
    if items == [] then 0
    else Total(items[..|items| - 1], actionsOf) + Count(actionsOf(items[|items| - 1]), Switchable)
  }

  lemma {:induction false} TotalIsCount(items: seq<J>, actionsOf: J -> seq<J>)
    ensures Total(items, actionsOf) == Count(ConcatMap(items, actionsOf), Switchable)
  {
    if items != [] {
      TotalIsCount(items[..|items| - 1], actionsOf);
      CountConcat(ConcatMap(items[..|items| - 1], actionsOf), actionsOf(items[|items| - 1]), Switchable);
    }
  }

  method RewriteSelector(sel: J, action: string) returns (out: J, changed: nat)
    ensures out == SwitchSelector(action)(sel)
    ensures changed == Count(ActionsOfSelector(sel), Switchable)
  {
    var acts := ListAt(sel, "matchActions");
    changed := 0;
    var done: seq<J> := [];
    for i := 0 to |acts|
      invariant done == Each(acts[..i], SwitchAction(action))
      invariant changed == Count(acts[..i], Switchable)
    {
      assert acts[..i + 1][..i] == acts[..i];
      var a := acts[i];
      if a.Obj? && "action" in a.fields && (a.fields["action"] == Str(POST) || a.fields["action"] == Str(SIGKILL)) {
        a := Obj(a.fields["action" := Str(action)]);
        changed := changed + 1;
      }
      EachNext(acts, i, done, a, SwitchAction(action));
      done := done + [a];
    }
    assert acts[..|acts|] == acts;
    out := sel;
    if sel.Obj? && "matchActions" in sel.fields && sel.fields["matchActions"].Arr? {
      out := Obj(sel.fields["matchActions" := Arr(done)]);
    }
  }

  method RewriteSelectors(sels: seq<J>, action: string) returns (done: seq<J>, changed: nat)
    ensures done == Each(sels, SwitchSelector(action))
    ensures changed == Total(sels, ActionsOfSelector)
  {
    changed := 0;
    done := [];
    for i := 0 to |sels|
      invariant done == Each(sels[..i], SwitchSelector(action))
      invariant changed == Total(sels[..i], ActionsOfSelector)
    {
      assert sels[..i + 1][..i] == sels[..i];
      var sel, n := RewriteSelector(sels[i], action);
      EachNext(sels, i, done, sel, SwitchSelector(action));
      done := done + [sel];
      changed := changed + n;
    }
    assert sels[..|sels|] == sels;
  }

  method RewriteProbe(p: J, action: string) returns (out: J, changed: nat)
    ensures out == SwitchProbe(action)(p)
    ensures changed == Count(ActionsOfProbe(p), Switchable)
  {
    var done;
    done, changed := RewriteSelectors(ListAt(p, "selectors"), action);
    TotalIsCount(ListAt(p, "selectors"), ActionsOfSelector);
    out := p;
    if p.Obj? && "selectors" in p.fields && p.fields["selectors"].Arr? {
      out := Obj(p.fields["selectors" := Arr(done)]);
    }
  }

  method RewriteProbes(probes: seq<J>, action: string) returns (done: seq<J>, changed: nat)
    ensures done == Each(probes, SwitchProbe(action))
    ensures changed == Total(probes, ActionsOfProbe)
  {
    changed := 0;
    done := [];
    for i := 0 to |probes|
      invariant done == Each(probes[..i], SwitchProbe(action))
      invariant changed == Total(probes[..i], ActionsOfProbe)
    {
      assert probes[..i + 1][..i] == probes[..i];
      var p, n := RewriteProbe(probes[i], action);
      EachNext(probes, i, done, p, SwitchProbe(action));
      done := done + [p];
      changed := changed + n;
    }
    assert probes[..|probes|] == probes;
  }

  method RewriteField(spec: J, field: string, action: string) returns (out: J, changed: nat)
    ensures out == Within(spec, field, SwitchProbe(action))
    ensures changed == Count(ActionsOfField(spec, field), Switchable)
  {
    var done;
    done, changed := RewriteProbes(ListAt(spec, field), action);
    TotalIsCount(ListAt(spec, field), ActionsOfProbe);
    out := spec;
    if spec.Obj? && field in spec.fields && spec.fields[field].Arr? {
      out := Obj(spec.fields[field := Arr(done)]);
    }
  }

  /** One more section done. */
  lemma FieldsInNext(spec: J, which: set<string>, field: string, f: J -> J)
    requires field !in which
    ensures Within(FieldsIn(spec, which, f), field, f) == FieldsIn(spec, which + {field}, f)
    ensures ListAt(FieldsIn(spec, which, f), field) == ListAt(spec, field)
  {
    if spec.Obj? {
      assert Within(FieldsIn(spec, which, f), field, f).fields == FieldsIn(spec, which + {field}, f).fields;
    }
  }

  lemma NoFieldsIn(spec: J, f: J -> J)
    ensures FieldsIn(spec, {}, f) == spec
  {
    if spec.Obj? { assert FieldsIn(spec, {}, f).fields == spec.fields; }
  }

  function Sections(n: nat): set<string>
    requires n <= |PROBE_FIELDS|
  {
    set i | 0 <= i < n :: PROBE_FIELDS[i]
  }

  lemma SectionsDistinct(n: nat)
    requires n < |PROBE_FIELDS|
    ensures PROBE_FIELDS[n] !in Sections(n)
    ensures Sections(n + 1) == Sections(n) + {PROBE_FIELDS[n]}
  {
    assert |PROBE_FIELDS[0]| == 7 && |PROBE_FIELDS[1]| == 11 && PROBE_FIELDS[2][0] == 'u' && PROBE_FIELDS[3][0] == 'l';
    assert PROBE_FIELDS[0][0] == 'k';
  }

  lemma OneMoreSection(spec: J, n: nat, action: string)
    requires n < |PROBE_FIELDS|
    ensures var done := FieldsIn(spec, Sections(n), SwitchProbe(action));
            && Within(done, PROBE_FIELDS[n], SwitchProbe(action)) == FieldsIn(spec, Sections(n + 1), SwitchProbe(action))
            && ListAt(done, PROBE_FIELDS[n]) == ListAt(spec, PROBE_FIELDS[n])
  {
    SectionsDistinct(n);
    FieldsInNext(spec, Sections(n), PROBE_FIELDS[n], SwitchProbe(action));
  }

  lemma OneMoreCount(spec: J, n: nat)
    requires n < |PROBE_FIELDS|
    ensures Count(ActionsOfFields(spec, PROBE_FIELDS[..n + 1]), Switchable)
         == Count(ActionsOfFields(spec, PROBE_FIELDS[..n]), Switchable) + Count(ActionsOfField(spec, PROBE_FIELDS[n]), Switchable)
  {
    assert PROBE_FIELDS[..n + 1][..n] == PROBE_FIELDS[..n];
    CountConcat(ActionsOfFields(spec, PROBE_FIELDS[..n]), ActionsOfField(spec, PROBE_FIELDS[n]), Switchable);
  }

  method RewriteSpec(was: J, action: string) returns (spec: J, changed: nat)
    ensures spec == SwitchSpec(was, action)
    ensures changed == Count(ActionsOfFields(was, PROBE_FIELDS), Switchable)
  {
    spec, changed := was, 0;
    NoFieldsIn(was, SwitchProbe(action));
    for i := 0 to |PROBE_FIELDS|
      invariant spec == FieldsIn(was, Sections(i), SwitchProbe(action))
      invariant changed == Count(ActionsOfFields(was, PROBE_FIELDS[..i]), Switchable)
    {
      OneMoreSection(was, i, action);
      OneMoreCount(was, i);
      var n;
      spec, n := RewriteField(spec, PROBE_FIELDS[i], action);
      changed := changed + n;
    }
    assert PROBE_FIELDS[..|PROBE_FIELDS|] == PROBE_FIELDS;
  }

  /** The number returned is the number of Post and Sigkill actions, and the object
      afterwards is the switched one. */
  method RewriteActions(obj: J, action: string) returns (out: J, changed: nat)
    ensures out == Switched(obj, action)
    ensures changed == Count(ActionsOf(obj), Switchable)
  {
    if SpecOf(obj).None? { return obj, 0; }
    var spec;
    spec, changed := RewriteSpec(obj.fields["spec"], action);
    out := Obj(obj.fields["spec" := spec]);
  }

  lemma CountNext(actions: seq<J>, i: nat, p: J -> bool)
    requires i < |actions|
    ensures Count(actions[..i + 1], p) == Count(actions[..i], p) + if p(actions[i]) then 1 else 0
  {
    assert actions[..i + 1][..i] == actions[..i];
  }

  /** detectMode: counts the two kinds of actions that say something about the mode. */
  method Detect(obj: J) returns (mode: string)
    ensures mode == DetectMode(obj)
  {
    var acts := ActionsOf(obj);
    var post, kill := 0, 0;
    for i := 0 to |acts|
      invariant kill == Count(acts[..i], Kills) && post == Count(acts[..i], Posts)
    {
      CountNext(acts, i, Kills);
      CountNext(acts, i, Posts);
      if Does(acts[i], SIGKILL) { kill := kill + 1; }
      if Does(acts[i], POST) { post := post + 1; }
    }
    assert acts[..|acts|] == acts;
    if kill == 0 { return "Monitoring"; }
    if post == 0 { return "Protect"; }
    return "Mixed";
  }

  // -------------------------------------------------- objects with nothing to switch

  lemma {:induction false} NoneCounted(actions: seq<J>, i: nat)
    requires Count(actions, Switchable) == 0 && i < |actions|
    ensures !Switchable(actions[i])
  {
    if i < |actions| - 1 { NoneCounted(actions[..|actions| - 1], i); }
  }

  lemma {:induction false} NoneCountedIn(items: seq<J>, f: J -> seq<J>, i: nat)
    requires Count(ConcatMap(items, f), Switchable) == 0 && i < |items|
    ensures Count(f(items[i]), Switchable) == 0
  {
    var init := items[..|items| - 1];
    CountConcat(ConcatMap(init, f), f(items[|items| - 1]), Switchable);
    if i < |items| - 1 { NoneCountedIn(init, f, i); }
  }

  lemma WithinSame(j: J, field: string, f: J -> J)
    requires forall i :: 0 <= i < |ListAt(j, field)| ==> f(ListAt(j, field)[i]) == ListAt(j, field)[i]
    ensures Within(j, field, f) == j
  {
    if j.Obj? && field in j.fields && j.fields[field].Arr? {
      var items := ListAt(j, field);
      assert Each(items, f) == items by { assert forall i :: 0 <= i < |items| ==> Each(items, f)[i] == items[i]; }
      assert j.fields[field] == Arr(items);
      assert Within(j, field, f).fields == j.fields;
    }
  }

  lemma SelectorUntouched(sel: J, action: string)
    requires Count(ActionsOfSelector(sel), Switchable) == 0
    ensures SwitchSelector(action)(sel) == sel
  {
    var acts := ListAt(sel, "matchActions");
    forall i | 0 <= i < |acts| ensures SwitchAction(action)(acts[i]) == acts[i] { NoneCounted(acts, i); }
    WithinSame(sel, "matchActions", SwitchAction(action));
  }

  lemma ProbeUntouched(p: J, action: string)
    requires Count(ActionsOfProbe(p), Switchable) == 0
    ensures SwitchProbe(action)(p) == p
  {
    var sels := ListAt(p, "selectors");
    forall i | 0 <= i < |sels| ensures SwitchSelector(action)(sels[i]) == sels[i] {
      NoneCountedIn(sels, ActionsOfSelector, i);
      SelectorUntouched(sels[i], action);
    }
    WithinSame(p, "selectors", SwitchSelector(action));
  }

  lemma {:induction false} FieldsUntouched(spec: J, n: nat, action: string)
    requires n <= |PROBE_FIELDS| && Count(ActionsOfFields(spec, PROBE_FIELDS[..n]), Switchable) == 0
    ensures FieldsIn(spec, Sections(n), SwitchProbe(action)) == spec
  {
    if n == 0 {
      NoFieldsIn(spec, SwitchProbe(action));
    } else {
      OneMoreCount(spec, n - 1);
      FieldsUntouched(spec, n - 1, action);
      SectionUntouched(spec, n - 1, action);
    }
  }

  lemma SectionUntouched(spec: J, n: nat, action: string)
    requires n < |PROBE_FIELDS| && Count(ActionsOfField(spec, PROBE_FIELDS[n]), Switchable) == 0
    requires FieldsIn(spec, Sections(n), SwitchProbe(action)) == spec
    ensures FieldsIn(spec, Sections(n + 1), SwitchProbe(action)) == spec
  {
    FieldUntouched(spec, PROBE_FIELDS[n], action);
    OneMoreSection(spec, n, action);
  }

  lemma FieldUntouched(spec: J, field: string, action: string)
    requires Count(ActionsOfField(spec, field), Switchable) == 0
    ensures Within(spec, field, SwitchProbe(action)) == spec
  {
    var probes := ListAt(spec, field);
    forall i | 0 <= i < |probes| ensures SwitchProbe(action)(probes[i]) == probes[i] {
      NoneCountedIn(probes, ActionsOfProbe, i);
      ProbeUntouched(probes[i], action);
    }
    WithinSame(spec, field, SwitchProbe(action));
  }

  /** Leaving an object without such actions alone is the same as rewriting it. */
  lemma UntouchedIsSwitched(obj: J, action: string)
    requires Count(ActionsOf(obj), Switchable) == 0
    ensures Switched(obj, action) == obj
  {
    match SpecOf(obj)
    case None =>
    case Some(spec) =>
      assert PROBE_FIELDS[..|PROBE_FIELDS|] == PROBE_FIELDS;
      FieldsUntouched(spec, |PROBE_FIELDS|, action);
      assert Switched(obj, action).fields == obj.fields;
  }

  // --------------------------------------------------------------- built policies

  /** A list that is left out of the document when it is empty. */
  function Optional(fields: map<string, J>, key: string, items: seq<J>): map<string, J> {
    if items == [] then fields else fields[key := Arr(items)]
  }

  function StringTree(s: string): J { Str(s) }

  function ActionTree(action: string): J { Obj(map["action" := Str(action)]) }

  function BinaryTree(b: BinarySelector): J {
    Obj(map["operator" := Str(b.operator), "values" := Arr(Each(b.values, StringTree))])
  }

  function ArgTree(a: ArgSelector): J {
    Obj(map["index" := Num(a.index), "operator" := Str(a.operator), "values" := Arr(Each(a.values, StringTree))])
  }

  function SelectorRest(s: Selector): map<string, J> {
    Optional(Optional(map[], "matchBinaries", Each(s.matchBinaries, BinaryTree)), "matchArgs", Each(s.matchArgs, ArgTree))
  }

  function SelectorTree(s: Selector): J {
    Obj(SelectorRest(s)["matchActions" := Arr(Each(s.matchActions, ActionTree))])
  }

  function ProbeArgTree(a: KProbeArg): J { Obj(map["index" := Num(a.index), "type" := Str(a.kind)]) }

  function ProbeRest(kp: KProbe): map<string, J> {
    Optional(map["call" := Str(kp.call), "syscall" := Bool(kp.syscall)], "args", Each(kp.args, ProbeArgTree))
  }

  function ProbeTree(kp: KProbe): J {
    Obj(Optional(ProbeRest(kp), "selectors", Each(kp.selectors, SelectorTree)))
  }

  function SpecRest(p: Policy): map<string, J> {
    if p.podSelector == map[] then map[]
    else map["podSelector" := Obj(map["matchLabels" := Obj(map k | k in p.podSelector :: Str(p.podSelector[k]))])]
  }

  function MetadataTree(p: Policy): J {
    Obj(if p.namespace == "" then map["name" := Str(p.name)] else map["name" := Str(p.name), "namespace" := Str(p.namespace)])
  }

  function SpecTree(p: Policy): J { Obj(Optional(SpecRest(p), "kprobes", Each(p.kprobes, ProbeTree))) }

  /** The document a built policy is stored as. */
  function TreeOf(p: Policy): J {
    Obj(map["apiVersion" := Str(p.apiVersion), "kind" := Str(p.kind), "metadata" := MetadataTree(p), "spec" := SpecTree(p)])
  }

  function Redo(was: string, action: string): string { if was == POST || was == SIGKILL then action else was }

  function RedoSelector(s: Selector, action: string): Selector {
    s.(matchActions := seq(|s.matchActions|, i requires 0 <= i < |s.matchActions| => Redo(s.matchActions[i], action)))
  }

  function RedoProbe(kp: KProbe, action: string): KProbe {
    kp.(selectors := seq(|kp.selectors|, i requires 0 <= i < |kp.selectors| => RedoSelector(kp.selectors[i], action)))
  }

  /** The policy with every action it has switched. */
  function RedoPolicy(p: Policy, action: string): Policy {
    p.(kprobes := seq(|p.kprobes|, i requires 0 <= i < |p.kprobes| => RedoProbe(p.kprobes[i], action)))
  }

  lemma SelectorTreeSwitched(s: Selector, action: string)
    ensures SwitchSelector(action)(SelectorTree(s)) == SelectorTree(RedoSelector(s, action))
  {
    var t := RedoSelector(s, action);
    forall a ensures SwitchAction(action)(ActionTree(a)) == ActionTree(Redo(a, action)) {
      assert map["action" := Str(a)]["action" := Str(action)] == map["action" := Str(action)];
    }
    assert Each(Each(s.matchActions, ActionTree), SwitchAction(action)) == Each(t.matchActions, ActionTree);
    assert SwitchSelector(action)(SelectorTree(s)).fields == SelectorTree(t).fields;
  }

  lemma ProbeTreeSwitched(kp: KProbe, action: string)
    ensures SwitchProbe(action)(ProbeTree(kp)) == ProbeTree(RedoProbe(kp, action))
  {
    var t := RedoProbe(kp, action);
    forall s ensures SwitchSelector(action)(SelectorTree(s)) == SelectorTree(RedoSelector(s, action)) {
      SelectorTreeSwitched(s, action);
    }
    assert Each(Each(kp.selectors, SelectorTree), SwitchSelector(action)) == Each(t.selectors, SelectorTree);
    assert SwitchProbe(action)(ProbeTree(kp)).fields == ProbeTree(t).fields;
  }

  lemma SpecTreeSwitched(p: Policy, action: string)
    ensures SwitchSpec(SpecTree(p), action) == SpecTree(RedoPolicy(p, action))
  {
    var t := RedoPolicy(p, action);
    forall kp ensures SwitchProbe(action)(ProbeTree(kp)) == ProbeTree(RedoProbe(kp, action)) { ProbeTreeSwitched(kp, action); }
    assert Each(Each(p.kprobes, ProbeTree), SwitchProbe(action)) == Each(t.kprobes, ProbeTree);
    assert "kprobes" == PROBE_FIELDS[0];
    assert SwitchSpec(SpecTree(p), action).fields == SpecTree(t).fields;
  }

  lemma TreeSwitched(p: Policy, action: string)
    ensures Switched(TreeOf(p), action) == TreeOf(RedoPolicy(p, action))
  {
    SpecTreeSwitched(p, action);
    assert Switched(TreeOf(p), action).fields == TreeOf(RedoPolicy(p, action)).fields;
  }

  /** Selectors that differ in their one action. */
  ghost predicate SameButAction(a: seq<Selector>, b: seq<Selector>, first: string, second: string) {
    |a| == |b| && forall i :: 0 <= i < |a| ==> a[i].matchActions == [first] && b[i] == a[i].(matchActions := [second])
  }

  lemma {:induction false} BlacklistOtherAction(rules: seq<FileRule>, first: string, second: string)
    ensures var a, b := BlacklistSelectors(rules, first), BlacklistSelectors(rules, second);
            (a.Ok? <==> b.Ok?) && (a.Ok? ==> SameButAction(a.value, b.value, first, second)) && (a.Err? ==> b == Err(a.error))
  {
    if rules != [] { BlacklistOtherAction(rules[..|rules| - 1], first, second); }
  }

  lemma RedoSame(a: seq<Selector>, b: seq<Selector>, first: string, second: string, i: nat)
    requires SameButAction(a, b, first, second) && i < |a| && (first == POST || first == SIGKILL)
    ensures RedoSelector(a[i], second) == b[i]
  {
    assert RedoSelector(a[i], second).matchActions == [second];
  }

  lemma FileProbesRedone(a: seq<Selector>, b: seq<Selector>, first: string, second: string)
    requires SameButAction(a, b, first, second) && (first == POST || first == SIGKILL)
    ensures |FileProbes(a)| == |FileProbes(b)| <= 1
    ensures a != [] ==> RedoProbe(FileProbes(a)[0], second) == FileProbes(b)[0]
  {
    forall i | 0 <= i < |a| ensures RedoSelector(a[i], second) == b[i] { RedoSame(a, b, first, second, i); }
    if a != [] { assert RedoProbe(FileProbes(a)[0], second).selectors == b; }
  }

  lemma ProcessProbesRedone(op: string, bins: seq<string>, first: string, second: string)
    requires (first == POST || first == SIGKILL) && bins != []
    ensures RedoProbe(ProcessProbes(op, bins, first)[0], second) == ProcessProbes(op, bins, second)[0]
  {
    var kp := ProcessProbes(op, bins, first)[0];
    assert RedoSelector(kp.selectors[0], second).matchActions == [second];
    assert RedoProbe(kp, second).selectors == ProcessProbes(op, bins, second)[0].selectors;
  }

  /** The selectors under another action, or the same refusal. */
  lemma FileSelectorsRedone(form: Form, first: string, second: string)
    ensures var a, b := FileSelectors(form, first), FileSelectors(form, second);
            (a.Ok? <==> b.Ok?) && (a.Ok? ==> SameButAction(a.value, b.value, first, second)) && (a.Err? ==> b == Err(a.error))
  {
    BlacklistOtherAction(form.file, first, second);
  }

  lemma ProbesRedone(op: string, bins: seq<string>, a: seq<Selector>, b: seq<Selector>, form: Form, first: string, second: string)
    requires SameButAction(a, b, first, second) && (first == POST || first == SIGKILL)
    ensures RedoPolicy(PolicyOf(form, ProcessProbes(op, bins, first) + FileProbes(a)), second)
         == PolicyOf(form, ProcessProbes(op, bins, second) + FileProbes(b))
  {
    FileProbesRedone(a, b, first, second);
    if bins != [] { ProcessProbesRedone(op, bins, first, second); }
    var before, after := ProcessProbes(op, bins, first) + FileProbes(a), ProcessProbes(op, bins, second) + FileProbes(b);
    assert RedoPolicy(PolicyOf(form, before), second).kprobes == after;
  }

  /** The action given to the builder decides nothing but the actions. */
  lemma RedoBuilt(form: Form, first: string, second: string)
    requires first == POST || first == SIGKILL
    ensures var a, b := Build(form, first), Build(form, second);
            if a.Ok? then b == Ok(RedoPolicy(a.value, second)) else b == Err(a.error)
  {
    FileSelectorsRedone(form, first, second);
    if FileSelectors(form, first).Ok? {
      var a, b := FileSelectors(form, first).value, FileSelectors(form, second).value;
      ProbesRedone(ProcessOperator(form), Cleaned(Flat(form.process)), a, b, form, first, second);
    }
  }

  /** Switching a stored policy is building it anew with the other action. */
  lemma SwitchIsRebuild(form: Form, first: string, second: string)
    requires (first == POST || first == SIGKILL) && Build(form, first).Ok?
    ensures Build(form, second).Ok?
    ensures Switched(TreeOf(Build(form, first).value), second) == TreeOf(Build(form, second).value)
  {
    RedoBuilt(form, first, second);
    TreeSwitched(Build(form, first).value, second);
  }

  // --------------------------------------------------------------------- the store

  datatype Ref = Ref(namespace: string, name: string)

  type Cluster = map<Ref, J>

  /** The policies named, switched. */
  function SwitchedRefs(cluster: Cluster, refs: seq<Ref>, action: string): Cluster {
    map r | r in cluster :: if r in refs then Switched(cluster[r], action) else cluster[r]
  }

  /** Which API calls fail, by position in the listing. */
  datatype Faults = Faults(gets: set<nat>, updates: set<nat>)

  /** The switch of the i-th policy goes through: it is read, and written back unless
      there was nothing to switch. */
  predicate Reached(cluster: Cluster, refs: seq<Ref>, faults: Faults, i: nat)
    requires i < |refs|
  {
    && i !in faults.gets && refs[i] in cluster
    && (i in faults.updates ==> Count(ActionsOf(cluster[refs[i]]), Switchable) == 0)
  }

  lemma SwitchedKeepsReach(cluster: Cluster, refs: seq<Ref>, done: seq<Ref>, action: string, faults: Faults, i: nat)
    requires i < |refs| && (action == POST || action == SIGKILL)
    ensures Reached(SwitchedRefs(cluster, done, action), refs, faults, i) <==> Reached(cluster, refs, faults, i)
  {
    if refs[i] in cluster {
      SwitchedActions(cluster[refs[i]], action);
      SwitchedCounts(ActionsOf(cluster[refs[i]]), action);
    }
  }

  lemma SwitchOneMore(cluster: Cluster, refs: seq<Ref>, i: nat, action: string)
    requires i < |refs| && refs[i] in cluster && (action == POST || action == SIGKILL)
    ensures var before := SwitchedRefs(cluster, refs[..i], action);
            SwitchedRefs(cluster, refs[..i + 1], action) == before[refs[i] := Switched(before[refs[i]], action)]
  {
    LastSwitchWins(cluster[refs[i]], action, action);
    assert refs[..i + 1] == refs[..i] + [refs[i]];
  }

  /** The policy reports the mode, or has no Post or Sigkill action at all. Any mode but
      Protect is monitoring. */
  predicate Agrees(obj: J, mode: string) {
    DetectMode(obj) == (if mode == "Protect" then "Protect" else "Monitoring") || Count(ActionsOf(obj), Switchable) == 0
  }

  /** After a pass that went through, every listed policy agrees with the mode. */
  lemma SwitchedAgree(cluster: Cluster, refs: seq<Ref>, mode: string, r: Ref)
    requires r in refs && r in cluster
    ensures Agrees(SwitchedRefs(cluster, refs, ModeAction(mode))[r], mode)
  {
    SwitchThenDetect(cluster[r], mode);
    SwitchedActions(cluster[r], ModeAction(mode));
    SwitchedCounts(ActionsOf(cluster[r]), ModeAction(mode));
  }

  class PolicyStore {
    var cluster: Cluster
    var globalMode: string

    constructor (cluster: Cluster)
      ensures this.cluster == cluster && globalMode == "Monitoring"
    {
      this.cluster := cluster;
      globalMode := "Monitoring";
    }

    method SetPolicyAction(r: Ref, action: string, getFails: bool, updateFails: bool) returns (ok: bool)
      modifies this`cluster
      ensures ok <==> !getFails && r in old(cluster) && (updateFails ==> Count(ActionsOf(old(cluster[r])), Switchable) == 0)
      ensures cluster == if ok then old(cluster)[r := Switched(old(cluster[r]), action)] else old(cluster)
    {
      if getFails || r !in cluster { return false; }
      var obj, changed := RewriteActions(cluster[r], action);
      if changed == 0 {
        UntouchedIsSwitched(cluster[r], action);
        return true;
      }
      if updateFails { return false; }
      cluster := cluster[r := obj];
      return true;
    }

    /** Policies are switched in listing order up to the first that cannot be reached;
        the cached mode changes when, and only when, all of them were. */
    method SetMode(mode: string, listing: Option<seq<Ref>>, faults: Faults) returns (ok: bool, reached: nat)
      modifies this
      ensures ok <==> listing.Some? && reached == |listing.value|
      ensures listing.Some? ==> reached <= |listing.value|
      ensures listing.Some? ==> forall i :: 0 <= i < reached ==> Reached(old(cluster), listing.value, faults, i)
      ensures listing.Some? && !ok ==> !Reached(old(cluster), listing.value, faults, reached)
      ensures cluster == if listing.Some? then SwitchedRefs(old(cluster), listing.value[..reached], ModeAction(mode)) else old(cluster)
      ensures globalMode == if ok then mode else old(globalMode)
      ensures ok ==> forall r :: r in listing.value ==> r in cluster && Agrees(cluster[r], globalMode)
    {
      reached := 0;
      if listing.None? { return false, 0; }
      var refs, action := listing.value, ModeAction(mode);
      ghost var was := cluster;
      assert SwitchedRefs(was, [], action) == was;
      while reached < |refs|
        invariant reached <= |refs|
        invariant cluster == SwitchedRefs(was, refs[..reached], action)
        invariant forall i :: 0 <= i < reached ==> Reached(was, refs, faults, i)
        invariant globalMode == old(globalMode)
      {
        SwitchedKeepsReach(was, refs, refs[..reached], action, faults, reached);
        var done := SetPolicyAction(refs[reached], action, reached in faults.gets, reached in faults.updates);
        if !done { return false, reached; }
        SwitchOneMore(was, refs, reached, action);
        reached := reached + 1;
      }
      globalMode := mode;
      ok := true;
      assert refs[..|refs|] == refs;
      forall r | r in refs ensures r in cluster && Agrees(cluster[r], mode) {
        var i :| 0 <= i < |refs| && refs[i] == r;
        assert Reached(was, refs, faults, i);
        SwitchedAgree(was, refs, mode, r);
      }
    }
  }
}
