/** Tracing policies, the pods they apply to and what they trigger on
    (internal/policy/types.go). Selectors are alternatives; the arguments and binaries
    inside one must all match. */
module TracingPolicy {
  import opened Wrappers

  datatype ArgSelector = ArgSelector(index: int, operator: string, values: seq<string>)

  datatype BinarySelector = BinarySelector(operator: string, values: seq<string>)

  datatype Selector = Selector(matchBinaries: seq<BinarySelector>, matchArgs: seq<ArgSelector>, matchActions: seq<string>)

  datatype KProbeArg = KProbeArg(index: int, kind: string)

  datatype KProbe = KProbe(call: string, syscall: bool, args: seq<KProbeArg>, selectors: seq<Selector>)

  datatype Policy = Policy(apiVersion: string, kind: string, name: string, namespace: string,
                           podSelector: map<string, string>, kprobes: seq<KProbe>)

  const EXECVE := "sys_execve"
  const FILE_PERMISSION := "security_file_permission"

  /** What the kernel reports: a program started, a file accessed (access 4 reads, 2
      writes), or something else. */
  datatype Event =
    | Exec(path: string, binary: string)
    | FileAccess(path: string, access: string, binary: string)
    | Elsewhere(call: string, binary: string)
  {
    function Call(): string {
      match this case Exec(_, _) => EXECVE case FileAccess(_, _, _) => FILE_PERMISSION case Elsewhere(call, _) => call
    }

    function Arg(index: int): Option<string> {
      match this
      case Exec(path, _) => if index == 0 then Some(path) else None
      case FileAccess(path, access, _) => if index == 0 then Some(path) else if index == 1 then Some(access) else None
      case Elsewhere(_, _) => None
    }
  }

  predicate Under(path: string, prefixes: seq<string>) {
    exists p :: p in prefixes && p <= path
  }

  predicate ArgMatches(a: ArgSelector, ev: Event) {
    match ev.Arg(a.index)
    case None => false
    case Some(v) =>
      match a.operator
      case "Equal" => v in a.values
      case "NotEqual" => v !in a.values
      case "Prefix" => Under(v, a.values)
      case "NotPrefix" => !Under(v, a.values)
      case _ => false
  }

  predicate BinaryMatches(b: BinarySelector, ev: Event) {
    match b.operator
    case "In" => ev.binary in b.values
    case "NotIn" => ev.binary !in b.values
    case _ => false
  }

  predicate SelectorMatches(s: Selector, ev: Event) {
    && (forall a :: a in s.matchArgs ==> ArgMatches(a, ev))
    && (forall b :: b in s.matchBinaries ==> BinaryMatches(b, ev))
  }

  predicate AnyMatches(selectors: seq<Selector>, ev: Event) {
    exists s :: s in selectors && SelectorMatches(s, ev)
  }

  /** A probe sees an event when it hooks the event's call, as a system call or not, and
      declares the arguments the event carries. */
  predicate Sees(kp: KProbe, ev: Event) {
    && kp.call == ev.Call()
    && match ev
       case Exec(_, _) => kp.syscall && KProbeArg(0, "string") in kp.args
       case FileAccess(_, _, _) => !kp.syscall && KProbeArg(0, "file") in kp.args && KProbeArg(1, "int") in kp.args
       case Elsewhere(_, _) => true
  }

  predicate Triggers(p: Policy, ev: Event) {
    exists kp :: kp in p.kprobes && Sees(kp, ev) && AnyMatches(kp.selectors, ev)
  }

  datatype Pod = Pod(namespace: string, labels: map<string, string>)

  predicate Carries(pod: Pod, labels: map<string, string>) {
    forall k :: k in labels ==> k in pod.labels && pod.labels[k] == labels[k]
  }

  /** The cluster knows two kinds of policy: one for every namespace, one for its own. */
  predicate AppliesTo(p: Policy, pod: Pod) {
    && p.apiVersion == "cilium.io/v1alpha1"
    && (p.kind == "TracingPolicy" || (p.kind == "TracingPolicyNamespaced" && pod.namespace == p.namespace))
    && Carries(pod, p.podSelector)
  }

  predicate TriggersIn(p: Policy, pod: Pod, ev: Event) { AppliesTo(p, pod) && Triggers(p, ev) }

  lemma AnyMatchesConcat(a: seq<Selector>, b: seq<Selector>, ev: Event)
    ensures AnyMatches(a + b, ev) <==> AnyMatches(a, ev) || AnyMatches(b, ev)
  {
  }

  lemma AnyMatchesOne(s: Selector, ev: Event)
    ensures AnyMatches([s], ev) <==> SelectorMatches(s, ev)
  {
    assert s in [s];
  }
}
