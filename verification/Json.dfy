/** Documents as trees: what unstructured objects and parsed YAML are. */
module Json {
  import opened Sequences
  import opened Wrappers

  datatype J = Null | Bool(b: bool) | Num(n: int) | Str(s: string) | Arr(items: seq<J>) | Obj(fields: map<string, J>)

  /** A field of a tree, if there is one. */
  function Field(j: J, key: string): Option<J> { if j.Obj? && key in j.fields then Some(j.fields[key]) else None }

  /** A field of an object that is a list, or the empty list. */
  function ListAt(j: J, field: string): seq<J> {
    if j.Obj? && field in j.fields && j.fields[field].Arr? then j.fields[field].items else []
  }

  function ConcatMap(items: seq<J>, f: J -> seq<J>): seq<J> {
    if items == [] then [] else ConcatMap(items[..|items| - 1], f) + f(items[|items| - 1])
  }

  /** Applies f to the elements of a list field, when there is one. */
  function Within(j: J, field: string, f: J -> J): J {
    if j.Obj? && field in j.fields && j.fields[field].Arr? then Obj(j.fields[field := Arr(Each(j.fields[field].items, f))]) else j
  }

  lemma EachConcat(a: seq<J>, b: seq<J>, f: J -> J)
    ensures Each(a + b, f) == Each(a, f) + Each(b, f)
  {
  }

  lemma ListAtWithin(j: J, field: string, f: J -> J)
    ensures ListAt(Within(j, field, f), field) == Each(ListAt(j, field), f)
  {
  }

  // ------------------------------------------------------------------ paths in trees

  datatype PathStep = Key(k: string) | At(i: nat)

  type Path = seq<PathStep>

  function Lookup(j: J, path: Path): Option<J> {
    if path == [] then Some(j)
    else
      match path[0]
      case Key(k) => if j.Obj? && k in j.fields then Lookup(j.fields[k], path[1..]) else None
      case At(i) => if j.Arr? && i < |j.items| then Lookup(j.items[i], path[1..]) else None
  }

  /** A node without what is below it. */
  datatype Shape = Scalar(v: J) | ArrOf(length: nat) | ObjOf(keys: set<string>)

  function ShapeOf(j: J): Shape {
    match j
    case Arr(items) => ArrOf(|items|)
    case Obj(fields) => ObjOf(fields.Keys)
    case _ => Scalar(j)
  }

  function ShapeAt(j: J, path: Path): Option<Shape> {
    match Lookup(j, path) case Some(v) => Some(ShapeOf(v)) case None => None
  }

  /** Where a path passes through an element of a list field, or not. */
  ghost predicate Enters(j: J, field: string, path: Path) {
    |path| >= 2 && path[0] == Key(field) && path[1].At? && path[1].i < |ListAt(j, field)|
  }

  lemma LookupField(j: J, k: string, path: Path)
    requires j.Obj? && k in j.fields && path != [] && path[0] == Key(k)
    ensures Lookup(j, path) == Lookup(j.fields[k], path[1..])
    ensures |path| == 1 ==> Lookup(j, path) == Some(j.fields[k])
  {
    if |path| == 1 { assert path[1..] == []; }
  }

  lemma LookupItem(j: J, field: string, path: Path)
    requires j.Obj? && field in j.fields && j.fields[field].Arr? && |path| >= 2 && path[0] == Key(field)
    ensures Lookup(j, path)
         == if path[1].At? && path[1].i < |j.fields[field].items| then Lookup(j.fields[field].items[path[1].i], path[2..])
            else None
  {
    LookupField(j, field, path);
    assert path[1..][0] == path[1] && path[1..][1..] == path[2..];
  }

  /** Applying f inside a list field is seen on the paths through its elements only. */
  lemma WithinShape(j: J, field: string, f: J -> J, path: Path)
    ensures if Enters(j, field, path) then
              var item := ListAt(j, field)[path[1].i];
              && ShapeAt(Within(j, field, f), path) == ShapeAt(f(item), path[2..])
              && ShapeAt(j, path) == ShapeAt(item, path[2..])
            else ShapeAt(Within(j, field, f), path) == ShapeAt(j, path)
  {
    if j.Obj? && field in j.fields && j.fields[field].Arr? {
      FieldsShape(j, Within(j, field, f), {field}, f, path);
    }
  }

  /** The same for several list fields at once. */
  lemma FieldsShape(j: J, w: J, which: set<string>, f: J -> J, path: Path)
    requires j.Obj? && w.Obj? && w.fields.Keys == j.fields.Keys
    requires forall k :: k in j.fields ==>
      w.fields[k] == if k in which && j.fields[k].Arr? then Arr(Each(j.fields[k].items, f)) else j.fields[k]
    ensures if path != [] && path[0].Key? && path[0].k in which && Enters(j, path[0].k, path) then
              var item := ListAt(j, path[0].k)[path[1].i];
              && ShapeAt(w, path) == ShapeAt(f(item), path[2..])
              && ShapeAt(j, path) == ShapeAt(item, path[2..])
            else ShapeAt(w, path) == ShapeAt(j, path)
  {
    if path != [] && path[0].Key? && path[0].k in j.fields {
      var k := path[0].k;
      LookupField(j, k, path);
      LookupField(w, k, path);
      if k in which && j.fields[k].Arr? && |path| >= 2 {
        LookupItem(j, k, path);
        LookupItem(w, k, path);
      }
    }
  }
}
