/** Switching the enforcement mode of stored policies (internal/k8s/store.go): every
    Post or Sigkill action is rewritten in place in the unstructured object, whatever
    else it holds. */
module ModeSwitch {
  import opened Sequences
  import opened Wrappers
  import opened Json
  import TracingPolicy
  import PolicyBuilder

  const POST := "Post"
  const SIGKILL := "Sigkill"

  /** Where a spec keeps its probes. */
  const PROBE_FIELDS: seq<string> := ["kprobes", "tracepoints", "uprobes", "lsmhooks"]

  predicate Does(a: J, action: string) {
    a.Obj? && "action" in a.fields && a.fields["action"] == Str(action)
  }

  /** Only these two say something about the enforcement mode. */
  predicate Switchable(a: J) { Does(a, POST) || Does(a, SIGKILL) }

  function SwitchAction(action: string): J -> J {
    a => if Switchable(a) then Obj(a.fields["action" := Str(action)]) else a
  }

  function SwitchSelector(action: string): J -> J {
    sel => Within(sel, "matchActions", SwitchAction(action))
  }

  function SwitchProbe(action: string): J -> J {
    p => Within(p, "selectors", SwitchSelector(action))
  }

  /** Applies f to the elements of the list fields named. */
  function FieldsIn(spec: J, which: set<string>, f: J -> J): J {
    if spec.Obj? then
      Obj(map k | k in spec.fields ::
            if k in which && spec.fields[k].Arr? then Arr(Each(spec.fields[k].items, f)) else spec.fields[k])
    else spec
  }

  function SwitchSpec(spec: J, action: string): J {
    FieldsIn(spec, set i | 0 <= i < |PROBE_FIELDS| :: PROBE_FIELDS[i], SwitchProbe(action))
  }

  function SpecOf(obj: J): Option<J> {
    if obj.Obj? && "spec" in obj.fields && obj.fields["spec"].Obj? then Some(obj.fields["spec"]) else None
  }

  function Switched(obj: J, action: string): J {
    match SpecOf(obj)
    case None => obj
    case Some(spec) => Obj(obj.fields["spec" := SwitchSpec(spec, action)])
  }

  // ------------------------------------------------------------------ the actions

  function ActionsOfSelector(sel: J): seq<J> { ListAt(sel, "matchActions") }

  function ActionsOfProbe(p: J): seq<J> { ConcatMap(ListAt(p, "selectors"), ActionsOfSelector) }

  function ActionsOfField(spec: J, field: string): seq<J> { ConcatMap(ListAt(spec, field), ActionsOfProbe) }

  function ActionsOfFields(spec: J, fields: seq<string>): seq<J> {
    if fields == [] then []
    else ActionsOfFields(spec, fields[..|fields| - 1]) + ActionsOfField(spec, fields[|fields| - 1])
  }

  /** Every entry of every action list a probe section of the object holds. */
  function ActionsOf(obj: J): seq<J> {
    match SpecOf(obj) case None => [] case Some(spec) => ActionsOfFields(spec, PROBE_FIELDS)
  }

  function Count(actions: seq<J>, p: J -> bool): nat {
    if actions == [] then 0
    else Count(actions[..|actions| - 1], p) + if p(actions[|actions| - 1]) then 1 else 0
  }

  predicate Posts(a: J) { Does(a, POST) }

  predicate Kills(a: J) { Does(a, SIGKILL) }

  /** What the list column reports. */
  function DetectMode(obj: J): string {
    var acts := ActionsOf(obj);
    if Count(acts, Kills) == 0 then "Monitoring"
    else if Count(acts, Posts) == 0 then "Protect"
    else "Mixed"
  }

  function ModeAction(mode: string): string { if mode == "Protect" then SIGKILL else POST }

  // ----------------------------------------------------- what a switch does to them

  lemma {:induction false} ConcatMapMap(items: seq<J>, f: J -> seq<J>, g: J -> J, h: J -> J)
    requires forall x :: x in items ==> f(g(x)) == Each(f(x), h)
    ensures ConcatMap(Each(items, g), f) == Each(ConcatMap(items, f), h)
  {
    if items != [] {
      var init, last := items[..|items| - 1], items[|items| - 1];
      assert items == init + [last];
      assert Each(items, g)[..|items| - 1] == Each(init, g);
      ConcatMapMap(init, f, g, h);
      EachConcat(ConcatMap(init, f), f(last), h);
    }
  }

  lemma SelectorActions(sel: J, action: string)
    ensures ActionsOfSelector(SwitchSelector(action)(sel)) == Each(ActionsOfSelector(sel), SwitchAction(action))
  {
    ListAtWithin(sel, "matchActions", SwitchAction(action));
  }

  lemma ProbeActions(p: J, action: string)
    ensures ActionsOfProbe(SwitchProbe(action)(p)) == Each(ActionsOfProbe(p), SwitchAction(action))
  {
    ListAtWithin(p, "selectors", SwitchSelector(action));
    forall sel ensures ActionsOfSelector(SwitchSelector(action)(sel)) == Each(ActionsOfSelector(sel), SwitchAction(action)) {
      SelectorActions(sel, action);
    }
    ConcatMapMap(ListAt(p, "selectors"), ActionsOfSelector, SwitchSelector(action), SwitchAction(action));
  }

  lemma FieldActions(spec: J, which: set<string>, field: string, action: string)
    requires field in which
    ensures ActionsOfField(FieldsIn(spec, which, SwitchProbe(action)), field)
         == Each(ActionsOfField(spec, field), SwitchAction(action))
  {
    assert ListAt(FieldsIn(spec, which, SwitchProbe(action)), field) == Each(ListAt(spec, field), SwitchProbe(action));
    forall p ensures ActionsOfProbe(SwitchProbe(action)(p)) == Each(ActionsOfProbe(p), SwitchAction(action)) {
      ProbeActions(p, action);
    }
    ConcatMapMap(ListAt(spec, field), ActionsOfProbe, SwitchProbe(action), SwitchAction(action));
  }

  lemma {:induction false} SpecActions(spec: J, fields: seq<string>, which: set<string>, action: string)
    requires forall field :: field in fields ==> field in which
    ensures ActionsOfFields(FieldsIn(spec, which, SwitchProbe(action)), fields)
         == Each(ActionsOfFields(spec, fields), SwitchAction(action))
  {
    if fields != [] {
      var init, last := fields[..|fields| - 1], fields[|fields| - 1];
      assert fields == init + [last];
      SpecActions(spec, init, which, action);
      FieldActions(spec, which, last, action);
      EachConcat(ActionsOfFields(spec, init), ActionsOfField(spec, last), SwitchAction(action));
    }
  }

  /** The actions of a switched object are the old ones, each switched. */
  lemma SwitchedActions(obj: J, action: string)
    ensures ActionsOf(Switched(obj, action)) == Each(ActionsOf(obj), SwitchAction(action))
  {
    if SpecOf(obj).Some? {
      SpecActions(SpecOf(obj).value, PROBE_FIELDS, set i | 0 <= i < |PROBE_FIELDS| :: PROBE_FIELDS[i], action);
    }
  }

  lemma {:induction false} SwitchedCounts(actions: seq<J>, action: string)
    requires action == POST || action == SIGKILL
    ensures var after := Each(actions, SwitchAction(action));
            && Count(after, Switchable) == Count(actions, Switchable)
            && Count(after, if action == POST then Posts else Kills) == Count(actions, Switchable)
            && Count(after, if action == POST then Kills else Posts) == 0
  {
    if actions != [] {
      var init, a := actions[..|actions| - 1], actions[|actions| - 1];
      assert Each(actions, SwitchAction(action))[..|actions| - 1] == Each(init, SwitchAction(action));
      SwitchedCounts(init, action);
      SwitchedDoes(a, action);
    }
  }

  lemma SwitchedDoes(a: J, action: string)
    requires action == POST || action == SIGKILL
    ensures Switchable(SwitchAction(action)(a)) <==> Switchable(a)
    ensures Does(SwitchAction(action)(a), action) <==> Switchable(a)
    ensures !Does(SwitchAction(action)(a), if action == POST then SIGKILL else POST)
  {
    assert POST != SIGKILL by { assert |POST| == 4 && |SIGKILL| == 7; }
  }

  /** After a switch the column reports the mode asked for, or Monitoring when there was
      nothing to switch. */
  lemma SwitchThenDetect(obj: J, mode: string)
    ensures DetectMode(Switched(obj, ModeAction(mode)))
         == if mode == "Protect" && Count(ActionsOf(obj), Switchable) > 0 then "Protect" else "Monitoring"
  {
    SwitchedActions(obj, ModeAction(mode));
    SwitchedCounts(ActionsOf(obj), ModeAction(mode));
    assert POST != SIGKILL by { assert |POST| == 4 && |SIGKILL| == 7; }
  }

  // --------------------------------------------------------- later switches win

  lemma WithinTwice(j: J, field: string, f: J -> J, g: J -> J)
    requires forall x :: g(f(x)) == g(x)
    ensures Within(Within(j, field, f), field, g) == Within(j, field, g)
  {
    if j.Obj? && field in j.fields && j.fields[field].Arr? {
      assert Each(Each(j.fields[field].items, f), g) == Each(j.fields[field].items, g);
      var once, both := Within(Within(j, field, f), field, g), Within(j, field, g);
      assert once.fields == both.fields;
    }
  }

  lemma ActionTwice(a: J, first: string, second: string)
    requires first == POST || first == SIGKILL
    ensures SwitchAction(second)(SwitchAction(first)(a)) == SwitchAction(second)(a)
  {
    if Switchable(a) { assert a.fields["action" := Str(first)]["action" := Str(second)] == a.fields["action" := Str(second)]; }
  }

  lemma ProbeTwice(p: J, first: string, second: string)
    requires first == POST || first == SIGKILL
    ensures SwitchProbe(second)(SwitchProbe(first)(p)) == SwitchProbe(second)(p)
  {
    forall a ensures SwitchAction(second)(SwitchAction(first)(a)) == SwitchAction(second)(a) { ActionTwice(a, first, second); }
    forall sel ensures SwitchSelector(second)(SwitchSelector(first)(sel)) == SwitchSelector(second)(sel) {
      WithinTwice(sel, "matchActions", SwitchAction(first), SwitchAction(second));
    }
    WithinTwice(p, "selectors", SwitchSelector(first), SwitchSelector(second));
  }

  lemma FieldsInTwice(spec: J, which: set<string>, f: J -> J, g: J -> J)
    requires forall x :: g(f(x)) == g(x)
    ensures FieldsIn(FieldsIn(spec, which, f), which, g) == FieldsIn(spec, which, g)
  {
    if spec.Obj? {
      var once, both := FieldsIn(FieldsIn(spec, which, f), which, g), FieldsIn(spec, which, g);
      forall k | k in spec.fields ensures once.fields[k] == both.fields[k] {
        if spec.fields[k].Arr? { assert Each(Each(spec.fields[k].items, f), g) == Each(spec.fields[k].items, g); }
      }
      assert once.fields == both.fields;
    }
  }

  /** Switching is idempotent, and a second switch leaves nothing of the first. */
  lemma LastSwitchWins(obj: J, first: string, second: string)
    requires first == POST || first == SIGKILL
    ensures Switched(Switched(obj, first), second) == Switched(obj, second)
  {
    match SpecOf(obj)
    case None =>
    case Some(spec) =>
      forall p ensures SwitchProbe(second)(SwitchProbe(first)(p)) == SwitchProbe(second)(p) { ProbeTwice(p, first, second); }
      FieldsInTwice(spec, set i | 0 <= i < |PROBE_FIELDS| :: PROBE_FIELDS[i], SwitchProbe(first), SwitchProbe(second));
      assert Switched(Switched(obj, first), second).fields == Switched(obj, second).fields;
  }

  // ------------------------------------------------------------- nothing else changes

  /** The places an action's name can stand: spec, a probe section, a probe, its
      selectors, a selector, its actions, an action, its name. */
  predicate IsActionPath(path: Path) {
    && |path| == 8
    && path[0] == Key("spec") && path[1].Key? && path[1].k in {"kprobes", "tracepoints", "uprobes", "lsmhooks"} && path[2].At?
    && path[3] == Key("selectors") && path[4].At? && path[5] == Key("matchActions") && path[6].At?
    && path[7] == Key("action")
  }

  /** What a switch makes of the node at a path. */
  ghost function EditedShape(j: J, path: Path, isName: bool, action: string): Option<Shape> {
    var was := ShapeAt(j, path);
    if isName && (was == Some(Scalar(Str(POST))) || was == Some(Scalar(Str(SIGKILL)))) then Some(Scalar(Str(action))) else was
  }

  lemma ActionShape(a: J, action: string, path: Path)
    ensures ShapeAt(SwitchAction(action)(a), path) == EditedShape(a, path, path == [Key("action")], action)
  {
    if a.Obj? && "action" in a.fields && path != [] && path[0] == Key("action") {
      LookupField(a, "action", path);
      if Switchable(a) { LookupField(SwitchAction(action)(a), "action", path); }
    } else if a.Obj? && path != [] && path[0].Key? && path[0].k in a.fields {
      LookupField(a, path[0].k, path);
      LookupField(SwitchAction(action)(a), path[0].k, path);
    } else if Switchable(a) {
      assert SwitchAction(action)(a).fields.Keys == a.fields.Keys;
    }
  }

  predicate NameInSelector(path: Path) {
    |path| == 3 && path[0] == Key("matchActions") && path[1].At? && path[2] == Key("action")
  }

  lemma SelectorShape(sel: J, action: string, path: Path)
    ensures ShapeAt(SwitchSelector(action)(sel), path) == EditedShape(sel, path, NameInSelector(path), action)
  {
    WithinShape(sel, "matchActions", SwitchAction(action), path);
    if Enters(sel, "matchActions", path) {
      ActionShape(ListAt(sel, "matchActions")[path[1].i], action, path[2..]);
      assert path[2..] == [Key("action")] <==> NameInSelector(path);
    } else if NameInSelector(path) {
      OffTheList(sel, "matchActions", path);
    }
  }

  /** A path that leaves a list, or finds none, leads nowhere. */
  lemma OffTheList(j: J, field: string, path: Path)
    requires |path| >= 3 && path[0] == Key(field) && path[1].At? && path[2].Key? && !Enters(j, field, path)
    ensures ShapeAt(j, path) == None
  {
    if j.Obj? && field in j.fields {
      LookupField(j, field, path);
      if j.fields[field].Arr? { LookupItem(j, field, path); }
    }
  }

  predicate NameInProbe(path: Path) {
    |path| == 5 && path[0] == Key("selectors") && path[1].At? && NameInSelector(path[2..])
  }

  lemma ProbeShape(p: J, action: string, path: Path)
    ensures ShapeAt(SwitchProbe(action)(p), path) == EditedShape(p, path, NameInProbe(path), action)
  {
    WithinShape(p, "selectors", SwitchSelector(action), path);
    if Enters(p, "selectors", path) {
      SelectorShape(ListAt(p, "selectors")[path[1].i], action, path[2..]);
    } else if NameInProbe(path) {
      OffTheList(p, "selectors", path);
    }
  }

  predicate NameInSpec(path: Path) {
    |path| == 7 && path[0].Key? && path[0].k in PROBE_FIELDS && path[1].At? && NameInProbe(path[2..])
  }

  lemma SpecShape(spec: J, action: string, path: Path)
    requires spec.Obj?
    ensures ShapeAt(SwitchSpec(spec, action), path) == EditedShape(spec, path, NameInSpec(path), action)
  {
    var which := set i | 0 <= i < |PROBE_FIELDS| :: PROBE_FIELDS[i];
    FieldsShape(spec, SwitchSpec(spec, action), which, SwitchProbe(action), path);
    if path != [] && path[0].Key? {
      assert path[0].k in which <==> path[0].k in PROBE_FIELDS;
      if path[0].k in which && Enters(spec, path[0].k, path) {
        ProbeShape(ListAt(spec, path[0].k)[path[1].i], action, path[2..]);
      } else if NameInSpec(path) {
        OffTheList(spec, path[0].k, path);
      }
    }
  }

  lemma FourSections()
    ensures forall k :: k in PROBE_FIELDS <==> k in {"kprobes", "tracepoints", "uprobes", "lsmhooks"}
  {
    assert PROBE_FIELDS[0] == "kprobes" && PROBE_FIELDS[1] == "tracepoints";
    assert PROBE_FIELDS[2] == "uprobes" && PROBE_FIELDS[3] == "lsmhooks";
  }

  lemma ActionPathParts(path: Path)
    ensures IsActionPath(path) <==> path != [] && path[0] == Key("spec") && NameInSpec(path[1..])
  {
    FourSections();
    if |path| == 8 {
      var p1 := path[1..];
      var p3 := p1[2..];
      var p5 := p3[2..];
      assert p1[0] == path[1] && p1[1] == path[2] && p3[0] == path[3] && p3[1] == path[4];
      assert p5[0] == path[5] && p5[1] == path[6] && p5[2] == path[7];
    }
  }

  /** Node for node, switching changes the names of Post and Sigkill actions and
      nothing else in the object. */
  lemma SwitchedShape(obj: J, action: string, path: Path)
    ensures ShapeAt(Switched(obj, action), path) == EditedShape(obj, path, IsActionPath(path), action)
  {
    ActionPathParts(path);
    if obj.Obj? && path != [] && path[0].Key? && path[0].k in obj.fields {
      LookupField(obj, path[0].k, path);
      LookupField(Switched(obj, action), path[0].k, path);
      if path[0].k == "spec" {
        if obj.fields["spec"].Obj? {
          SpecShape(obj.fields["spec"], action, path[1..]);
        }
      }
    } else if SpecOf(obj).Some? {
      assert Switched(obj, action).fields.Keys == obj.fields.Keys;
    }
  }

  // ------------------------------------------------------------ what the column says

  /** Where the k-th action of the j-th selector of the i-th probe of a section stands. */
  function ActionPath(section: string, i: nat, j: nat, k: nat): Path {
    [Key("spec")] + ([Key(section), At(i)] + ([Key("selectors"), At(j)] + ([Key("matchActions"), At(k)] + [Key("action")])))
  }

  /** Some action of the object, in one of the four sections, has this name. */
  ghost predicate NamesAction(obj: J, action: string) {
    exists section, i, j, k ::
      section in {"kprobes", "tracepoints", "uprobes", "lsmhooks"} && Lookup(obj, ActionPath(section, i, j, k)) == Some(Str(action))
  }

  lemma LookupInList(j: J, field: string, i: nat, rest: Path)
    ensures Lookup(j, [Key(field), At(i)] + rest) == if i < |ListAt(j, field)| then Lookup(ListAt(j, field)[i], rest) else None
  {
    var path := [Key(field), At(i)] + rest;
    assert path[1..] == [At(i)] + rest && path[2..] == rest && path[1..][1..] == rest;
    if j.Obj? && field in j.fields {
      LookupField(j, field, path);
      if j.fields[field].Arr? { LookupItem(j, field, path); }
    }
  }

  lemma LookupAction(a: J, action: string)
    ensures Lookup(a, [Key("action")]) == Some(Str(action)) <==> Does(a, action)
  {
    if a.Obj? && "action" in a.fields { LookupField(a, "action", [Key("action")]); }
  }

  /** What a section's path comes to below the spec. */
  lemma LookupActionPath(obj: J, section: string, i: nat, j: nat, k: nat, action: string)
    ensures Lookup(obj, ActionPath(section, i, j, k)) == Some(Str(action))
       <==> SpecOf(obj).Some? && InSection(SpecOf(obj).value, section, i, j, k, action)
  {
    var rest := [Key("matchActions"), At(k)] + [Key("action")];
    var below := [Key(section), At(i)] + ([Key("selectors"), At(j)] + rest);
    assert ActionPath(section, i, j, k)[1..] == below;
    if obj.Obj? && "spec" in obj.fields {
      LookupField(obj, "spec", ActionPath(section, i, j, k));
      var spec := obj.fields["spec"];
      LookupInList(spec, section, i, [Key("selectors"), At(j)] + rest);
      if i < |ListAt(spec, section)| {
        var p := ListAt(spec, section)[i];
        LookupInList(p, "selectors", j, rest);
        if j < |ListAt(p, "selectors")| { LookupInSelector(ListAt(p, "selectors")[j], k, action); }
      }
    }
  }

  lemma LookupInSelector(sel: J, k: nat, action: string)
    ensures Lookup(sel, [Key("matchActions"), At(k)] + [Key("action")]) == Some(Str(action))
       <==> k < |ActionsOfSelector(sel)| && Does(ActionsOfSelector(sel)[k], action)
  {
    LookupInList(sel, "matchActions", k, [Key("action")]);
    if k < |ActionsOfSelector(sel)| { LookupAction(ActionsOfSelector(sel)[k], action); }
  }

  ghost predicate InSection(spec: J, section: string, i: nat, j: nat, k: nat, action: string) {
    && i < |ListAt(spec, section)|
    && j < |ListAt(ListAt(spec, section)[i], "selectors")|
    && var sel := ListAt(ListAt(spec, section)[i], "selectors")[j];
       k < |ActionsOfSelector(sel)| && Does(ActionsOfSelector(sel)[k], action)
  }

  lemma {:induction false} ConcatMapMembers(items: seq<J>, f: J -> seq<J>, x: J)
    ensures x in ConcatMap(items, f) <==> exists i :: 0 <= i < |items| && x in f(items[i])
  {
    if items != [] {
      var init := items[..|items| - 1];
      ConcatMapMembers(init, f, x);
      assert forall i :: 0 <= i < |init| ==> init[i] == items[i];
    }
  }

  lemma {:induction false} FieldsMembers(spec: J, fields: seq<string>, x: J)
    ensures x in ActionsOfFields(spec, fields) <==> exists section :: section in fields && x in ActionsOfField(spec, section)
  {
    if fields != [] {
      assert fields == fields[..|fields| - 1] + [fields[|fields| - 1]];
      FieldsMembers(spec, fields[..|fields| - 1], x);
    }
  }

  lemma SectionHas(spec: J, section: string, action: string)
    ensures (exists a :: a in ActionsOfField(spec, section) && Does(a, action))
       <==> exists i, j, k :: InSection(spec, section, i, j, k, action)
  {
    var probes := ListAt(spec, section);
    if a :| a in ActionsOfField(spec, section) && Does(a, action) {
      ConcatMapMembers(probes, ActionsOfProbe, a);
      var i :| 0 <= i < |probes| && a in ActionsOfProbe(probes[i]);
      var sels := ListAt(probes[i], "selectors");
      ConcatMapMembers(sels, ActionsOfSelector, a);
      var j :| 0 <= j < |sels| && a in ActionsOfSelector(sels[j]);
      var k :| 0 <= k < |ActionsOfSelector(sels[j])| && ActionsOfSelector(sels[j])[k] == a;
      assert InSection(spec, section, i, j, k, action);
    }
    if i: nat, j: nat, k: nat :| InSection(spec, section, i, j, k, action) {
      var sels := ListAt(probes[i], "selectors");
      var a := ActionsOfSelector(sels[j])[k];
      ConcatMapMembers(sels, ActionsOfSelector, a);
      ConcatMapMembers(probes, ActionsOfProbe, a);
    }
  }

  lemma NamedIn(obj: J, section: string, action: string)
    requires SpecOf(obj).Some? && section in PROBE_FIELDS
    requires exists a :: a in ActionsOfField(SpecOf(obj).value, section) && Does(a, action)
    ensures NamesAction(obj, action)
  {
    FourSections();
    SectionHas(SpecOf(obj).value, section, action);
    var i: nat, j: nat, k: nat :| InSection(SpecOf(obj).value, section, i, j, k, action);
    LookupActionPath(obj, section, i, j, k, action);
  }

  lemma NamedExactly(obj: J, action: string)
    ensures (exists a :: a in ActionsOf(obj) && Does(a, action)) <==> NamesAction(obj, action)
  {
    if a :| a in ActionsOf(obj) && Does(a, action) {
      FieldsMembers(SpecOf(obj).value, PROBE_FIELDS, a);
      var section :| section in PROBE_FIELDS && a in ActionsOfField(SpecOf(obj).value, section);
      NamedIn(obj, section, action);
    }
    if NamesAction(obj, action) {
      FourSections();
      var section, i: nat, j: nat, k: nat :|
        section in {"kprobes", "tracepoints", "uprobes", "lsmhooks"} && Lookup(obj, ActionPath(section, i, j, k)) == Some(Str(action));
      LookupActionPath(obj, section, i, j, k, action);
      SectionHas(SpecOf(obj).value, section, action);
      var a :| a in ActionsOfField(SpecOf(obj).value, section) && Does(a, action);
      FieldsMembers(SpecOf(obj).value, PROBE_FIELDS, a);
    }
  }

  lemma {:induction false} CountSome(actions: seq<J>, p: J -> bool)
    ensures Count(actions, p) > 0 <==> exists a :: a in actions && p(a)
  {
    if actions != [] {
      assert actions == actions[..|actions| - 1] + [actions[|actions| - 1]];
      CountSome(actions[..|actions| - 1], p);
    }
  }

  /** The column says Monitoring exactly when nothing in the four sections kills, and
      otherwise Protect or Mixed as nothing, or something, in them posts. */
  lemma DetectedExactly(obj: J)
    ensures DetectMode(obj) == if !NamesAction(obj, "Sigkill") then "Monitoring"
                               else if !NamesAction(obj, "Post") then "Protect" else "Mixed"
  {
    CountSome(ActionsOf(obj), Kills);
    CountSome(ActionsOf(obj), Posts);
    NamedExactly(obj, "Sigkill");
    NamedExactly(obj, "Post");
  }
}
