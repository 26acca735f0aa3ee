/** Tracing policies as the trees the cluster stores (internal/policy/types.go), read the
    way the form reads them (web/src/utils/yamlToForm.ts). The pieces are proved to fit
    together: a stored policy reads as the policy that was built, and switching its mode
    changes nothing the form shows. */
module PolicyDocument {
  import opened Wrappers
  import opened Sequences
  import opened Text
  import opened Json
  import opened TracingPolicy
  import opened PolicyBuilder
  import opened PolicyReader
  import opened ModeSwitch
  import opened ModeStore

  // ------------------------------------------------------------- reading a tree

  /** A text field; anything else reads as empty. */
  function TextAt(j: J, key: string): string { match Field(j, key) case Some(Str(s)) => s case _ => "" }

  /** A value of a list of values; a number reads as its digits. */
  function ValueText(j: J): string {
    match j case Str(s) => s case Num(n) => if n >= 0 then Decimal(n) else "-" + Decimal(-n) case _ => ""
  }

  function ValuesIn(j: J): seq<string> { Each(ListAt(j, "values"), ValueText) }

  function BinaryFrom(j: J): BinarySelector { BinarySelector(TextAt(j, "operator"), ValuesIn(j)) }

  function ArgFrom(j: J): ArgSelector {
    ArgSelector(match Field(j, "index") case Some(Num(n)) => n case _ => -1, TextAt(j, "operator"), ValuesIn(j))
  }

  const UNSUPPORTED: set<string> := {"matchNamespaces", "matchCapabilities", "matchPIDs", "matchReturnArgs",
                                     "matchNamespaceChanges", "matchCapabilityChanges"}

  function KeysIn(j: J): nat { match j case Obj(fields) => |fields| case _ => 0 }

  function SelectorFrom(j: J): DocSelector {
    DocSelector(exists k :: k in UNSUPPORTED && Field(j, k).Some?, Each(ListAt(j, "matchBinaries"), BinaryFrom),
                Each(ListAt(j, "matchArgs"), ArgFrom), Each(ListAt(j, "matchActions"), KeysIn))
  }

  /** A `return` that is no boolean counts as set. */
  function KProbeFrom(j: J): DocKProbe {
    DocKProbe(TextAt(j, "call"),
              match Field(j, "return") case None => None case Some(Bool(b)) => Some(b) case Some(_) => Some(true),
              Field(j, "returnArg").Some?, Field(j, "message").Some?, Field(j, "tags").Some?,
              Each(ListAt(j, "selectors"), SelectorFrom))
  }

  function Below(j: J, key: string): J { match Field(j, key) case Some(v) => v case None => Null }

  function LabelsFrom(j: J): map<string, string> {
    match j case Obj(fields) => map k | k in fields :: ValueText(fields[k]) case _ => map[]
  }

  /** The document as far as the form's reader looks at it. */
  function DocFrom(j: J): Doc {
    var meta, spec := Below(j, "metadata"), Below(j, "spec");
    Doc(TextAt(meta, "name"), TextAt(meta, "namespace"), LabelsFrom(Below(Below(spec, "podSelector"), "matchLabels")),
        Each(ListAt(spec, "kprobes"), KProbeFrom))
  }

  // --------------------------------------------------- a stored policy reads back

  lemma ValuesRead(fields: map<string, J>, values: seq<string>)
    requires "values" in fields && fields["values"] == Arr(Each(values, StringTree))
    ensures ValuesIn(Obj(fields)) == values
  {
  }

  lemma BinaryReads(b: BinarySelector)
    ensures BinaryFrom(BinaryTree(b)) == b
  {
    assert |"operator"| == 8 && |"values"| == 6;
    ValuesRead(BinaryTree(b).fields, b.values);
  }

  lemma ArgReads(a: ArgSelector)
    ensures ArgFrom(ArgTree(a)) == a
  {
    assert |"operator"| == 8 && |"values"| == 6 && |"index"| == 5;
    ValuesRead(ArgTree(a).fields, a.values);
  }

  /** Reading what was written, element by element. */
  lemma EachBack<T>(items: seq<T>, write: T -> J, read: J -> T)
    requires forall x :: read(write(x)) == x
    ensures Each(Each(items, write), read) == items
  {
  }

  lemma SelectorKeys()
    ensures "matchBinaries" !in {"matchArgs", "matchActions"} && "matchArgs" != "matchActions"
    ensures UNSUPPORTED !! {"matchBinaries", "matchArgs", "matchActions"}
  {
    assert |"matchBinaries"| == 13 && |"matchArgs"| == 9 && |"matchActions"| == 12;
    assert |"matchNamespaces"| == 15 && |"matchCapabilities"| == 17 && |"matchPIDs"| == 9 && |"matchReturnArgs"| == 15;
    assert |"matchNamespaceChanges"| == 21 && |"matchCapabilityChanges"| == 22;
    assert "matchPIDs"[5] == 'P' && "matchArgs"[5] == 'A';
  }

  lemma SelectorLists(s: Selector)
    ensures var j := SelectorTree(s);
            && j.fields.Keys <= {"matchBinaries", "matchArgs", "matchActions"}
            && ListAt(j, "matchBinaries") == Each(s.matchBinaries, BinaryTree)
            && ListAt(j, "matchArgs") == Each(s.matchArgs, ArgTree)
            && ListAt(j, "matchActions") == Each(s.matchActions, ActionTree)
  {
    SelectorKeys();
  }

  lemma SelectorReads(s: Selector)
    ensures SelectorFrom(SelectorTree(s)) == SelectorDoc(s)
  {
    SelectorLists(s);
    SelectorKeys();
    forall b ensures BinaryFrom(BinaryTree(b)) == b { BinaryReads(b); }
    forall a ensures ArgFrom(ArgTree(a)) == a { ArgReads(a); }
    EachBack(s.matchBinaries, BinaryTree, BinaryFrom);
    EachBack(s.matchArgs, ArgTree, ArgFrom);
    var keys := Each(Each(s.matchActions, ActionTree), KeysIn);
    assert forall a :: |map["action" := Str(a)]| == 1;
    assert keys == seq(|s.matchActions|, _ => 1);
  }

  lemma ProbeKeys()
    ensures {"call", "syscall", "args", "selectors"} !! {"return", "returnArg", "message", "tags"}
    ensures "call" !in {"syscall", "args", "selectors"} && "selectors" !in {"syscall", "args"} && "args" != "syscall"
  {
    assert |"call"| == 4 && |"syscall"| == 7 && |"args"| == 4 && |"selectors"| == 9;
    assert |"return"| == 6 && |"returnArg"| == 9 && |"message"| == 7 && |"tags"| == 4;
    assert "call"[0] == 'c' && "args"[0] == 'a' && "tags"[0] == 't' && "selectors"[0] == 's' && "returnArg"[0] == 'r';
    assert "syscall"[0] == 's' && "message"[0] == 'm';
  }

  lemma ProbeFields(kp: KProbe)
    ensures var j := ProbeTree(kp);
            && j.fields.Keys <= {"call", "syscall", "args", "selectors"}
            && Field(j, "call") == Some(Str(kp.call)) && Field(j, "syscall") == Some(Bool(kp.syscall))
            && ListAt(j, "args") == Each(kp.args, ProbeArgTree) && ListAt(j, "selectors") == Each(kp.selectors, SelectorTree)
  {
    ProbeKeys();
  }

  lemma ProbeArgFields(a: KProbeArg)
    ensures Field(ProbeArgTree(a), "index") == Some(Num(a.index)) && Field(ProbeArgTree(a), "type") == Some(Str(a.kind))
  {
    assert |"index"| == 5 && |"type"| == 4;
  }

  /** What a stored probe tells the kernel side beside its selectors: the call, whether it
      is a system call, and the arguments to fetch. */
  lemma ProbeStored(kp: KProbe, i: nat)
    ensures var j := ProbeTree(kp);
            && Field(j, "call") == Some(Str(kp.call)) && Field(j, "syscall") == Some(Bool(kp.syscall))
            && |ListAt(j, "args")| == |kp.args|
            && (i < |kp.args| ==> && Field(ListAt(j, "args")[i], "index") == Some(Num(kp.args[i].index))
                                  && Field(ListAt(j, "args")[i], "type") == Some(Str(kp.args[i].kind)))
  {
    ProbeFields(kp);
    if i < |kp.args| { ProbeArgFields(kp.args[i]); }
  }

  lemma {:induction false} SelectorDocsAre(sels: seq<Selector>)
    ensures |SelectorDocs(sels)| == |sels| && forall i :: 0 <= i < |sels| ==> SelectorDocs(sels)[i] == SelectorDoc(sels[i])
  {
    if sels != [] { SelectorDocsAre(sels[..|sels| - 1]); }
  }

  lemma SelectorsRead(sels: seq<Selector>)
    ensures Each(Each(sels, SelectorTree), SelectorFrom) == SelectorDocs(sels)
  {
    SelectorDocsAre(sels);
    forall i | 0 <= i < |sels| ensures SelectorFrom(SelectorTree(sels[i])) == SelectorDocs(sels)[i] { SelectorReads(sels[i]); }
  }

  lemma ProbeReads(kp: KProbe)
    ensures KProbeFrom(ProbeTree(kp)) == KProbeDoc(kp, false)
  {
    ProbeFields(kp);
    ProbeKeys();
    SelectorsRead(kp.selectors);
  }

  lemma PolicyFields(p: Policy)
    ensures var j := TreeOf(p);
            && Field(j, "metadata") == Some(MetadataTree(p)) && Field(j, "spec") == Some(SpecTree(p))
            && Field(j, "apiVersion") == Some(Str(p.apiVersion)) && Field(j, "kind") == Some(Str(p.kind))
  {
    assert |"metadata"| == 8 && |"spec"| == 4 && |"kind"| == 4 && |"apiVersion"| == 10 && "spec"[0] == 's' && "kind"[0] == 'k';
  }

  lemma SpecFields(p: Policy)
    ensures ListAt(SpecTree(p), "kprobes") == Each(p.kprobes, ProbeTree)
    ensures LabelsFrom(Below(Below(SpecTree(p), "podSelector"), "matchLabels")) == p.podSelector
    ensures TextAt(MetadataTree(p), "name") == p.name && TextAt(MetadataTree(p), "namespace") == p.namespace
  {
    assert |"kprobes"| == 7 && |"podSelector"| == 11 && |"name"| == 4 && |"namespace"| == 9;
  }

  /** A stored policy reads as the document of the policy it was built as. */
  lemma StoredReads(p: Policy)
    ensures DocFrom(TreeOf(p)) == DocOf(p, false)
  {
    PolicyFields(p);
    SpecFields(p);
    var read := Each(Each(p.kprobes, ProbeTree), KProbeFrom);
    forall i | 0 <= i < |p.kprobes| ensures read[i] == KProbeDoc(p.kprobes[i], false) { ProbeReads(p.kprobes[i]); }
    assert read == KProbeDocs(p.kprobes, false);
  }

  lemma ReopenedAlike(form: Form, first: string, second: string)
    requires (first == POST || first == SIGKILL) && Build(form, first).Ok? && Build(form, second).Ok?
    ensures Reopened(form, first) == Reopened(form, second)
  {
    if form.fileMode != "whitelist" { BlacklistOtherAction(form.file, first, second); }
  }

  /** Switching the mode of a stored policy changes nothing the form shows: it reopens as
      it did before. */
  lemma SwitchedReopens(form: Form, first: string, second: string)
    requires form.name != "" && (first == POST || first == SIGKILL) && Build(form, first).Ok?
    ensures var stored := TreeOf(Build(form, first).value);
            && YamlToForm(DocFrom(stored)).Some?
            && YamlToForm(DocFrom(Switched(stored, second))) == YamlToForm(DocFrom(stored))
  {
    SwitchIsRebuild(form, first, second);
    StoredReads(Build(form, first).value);
    StoredReads(Build(form, second).value);
    BuiltReopens(form, first, false);
    BuiltReopens(form, second, false);
    ReopenedAlike(form, first, second);
  }

  /** What the form could not show keeps a document from being opened: an option on a
      kprobe, or a matcher the form does not know in one of its selectors. */
  lemma UnshownRefused(j: J, kp: J, sel: J)
    requires kp in ListAt(Below(j, "spec"), "kprobes")
    ensures Field(kp, "returnArg").Some? || Field(kp, "message").Some? || Field(kp, "tags").Some? ==> YamlToForm(DocFrom(j)).None?
    ensures Field(kp, "return") !in {None, Some(Bool(false))} ==> YamlToForm(DocFrom(j)).None?
    ensures sel in ListAt(kp, "selectors") && HasUnknownMatcher(sel) ==> YamlToForm(DocFrom(j)).None?
  {
    OpensExactly(DocFrom(j));
    var kps := ListAt(Below(j, "spec"), "kprobes");
    var i :| 0 <= i < |kps| && kps[i] == kp;
    assert DocFrom(j).kprobes[i] == KProbeFrom(kp) && KProbeFrom(kp) in DocFrom(j).kprobes;
    if sel in ListAt(kp, "selectors") && HasUnknownMatcher(sel) {
      var sels := ListAt(kp, "selectors");
      var k :| 0 <= k < |sels| && sels[k] == sel;
      assert KProbeFrom(kp).selectors[k] == SelectorFrom(sel) && SelectorFrom(sel) in KProbeFrom(kp).selectors;
      assert SelectorFrom(sel).unsupported;
    }
  }

  ghost predicate HasUnknownMatcher(sel: J) {
    || Field(sel, "matchNamespaces").Some? || Field(sel, "matchCapabilities").Some? || Field(sel, "matchPIDs").Some?
    || Field(sel, "matchReturnArgs").Some? || Field(sel, "matchNamespaceChanges").Some? || Field(sel, "matchCapabilityChanges").Some?
  }
}
