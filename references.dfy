/**
 * The nested `replace_reference` of `clone_bundle`: a walk over one entry that
 * points every relative FHIR reference of the form `Type/id` found through
 * the reference map at its new address, descending
 * into dict-valued fields only. In the reference version an unmapped
 * Organization, Practitioner or Location reference also produces a placeholder
 * record and a map entry that later lookups see.
 */
module References {
  import opened Json

  /** `referenceMap`: only looked up and inserted into, so its order never shows. */
  type RefMap = map<string, string>

  /** `str(uuid1())`: the identifier handed out by the `n`-th call. */
  type IdSupply = nat -> string

  /** Whether the walk makes placeholders, and where their identifiers come from. */
  datatype Context = Context(placeholders: bool, uuid: IdSupply)

  /** The threaded state: the map, the number of identifiers used, the placeholders made so far. */
  datatype Walk = Walk(refs: RefMap, ids: nat, made: seq<Value>)

  datatype Step = Step(node: Value, walk: Walk)

  datatype Kids = Kids(fields: Fields, walk: Walk)

  /** The three kinds of record that get a placeholder when the bundle lacks them. */
  predicate IsStubReference(ref: string)
  {
    StartsWith(ref, "Organization/") || StartsWith(ref, "Practitioner/") || StartsWith(ref, "Location/")
  }

  /** The placeholder record made for a missing reference to a record of type `t`. */
  function Dummy(t: string, id: string): (r: Value)
    ensures r.Obj? && Get(r.fields, "id") == Some(Str(id)) && Get(r.fields, "resourceType") == Some(Str(t))
    ensures Keys(r.fields) == ["resourceType", "id", "name", "identifier"]
    ensures IsPlaceholder(r, id)
  {
    var nameTag := Str("unknown-" + Lower(t));
    var identifier := Arr([Obj([("system", Str("my-elixir")), ("value", nameTag)])]);
    var fs := [("resourceType", Str(t)), ("id", Str(id)), ("name", nameTag), ("identifier", identifier)];
    KeysIndex(fs, 0);
    KeysIndex(fs, 1);
    KeysIndex(fs, 2);
    KeysIndex(fs, 3);
    Obj(fs)
  }

  /** A placeholder record carrying identifier `id`. */
  predicate IsPlaceholder(v: Value, id: string)
  {
    && v.Obj? && |v.fields| == 4
    && v.fields[0] == ("resourceType", v.fields[0].1) && v.fields[0].1.Str?
    && v.fields[1] == ("id", Str(id))
    && v.fields[2] == ("name", Str("unknown-" + Lower(v.fields[0].1.s)))
    && v.fields[3] == ("identifier", Arr([Obj([("system", Str("my-elixir")), ("value", v.fields[2].1)])]))
  }

  /**
   * `"reference" in obj and "/" in obj["reference"]`, then `ref not in
   * referenceMap`: the reference string of a node, if it has one. A list or
   * dict holding "/" passes the first test and cannot be hashed by the second.
   */
  function Probe(fs: Fields): (r: Result<Option<string>>)
    ensures Get(fs, "reference").None? ==> r == Ok(None)
    ensures (r.Ok? && r.value.Some?) <==>
              (Get(fs, "reference").Some? && Get(fs, "reference").value.Str? && Contains(Get(fs, "reference").value.s, "/"))
    ensures r.Ok? && r.value.Some? ==> Get(fs, "reference") == Some(Str(r.value.value))
  {
    match Get(fs, "reference")
    case None => Ok(None)
    case Some(v) =>
      match In(v, "/")
      case Err(f) => Err(f)
      case Ok(false) => Ok(None)
      case Ok(true) => if v.Str? then Ok(Some(v.s)) else Err(TypeError)
  }

  /** `obj["reference"]` and, when present, `obj["display"]` set to the new address. */
  function Retarget(fs: Fields, addr: string): (r: Fields)
    ensures |r| == |fs| && Keys(r) == Keys(fs)
    ensures forall i :: 0 <= i < |fs| ==> r[i].0 == fs[i].0
    ensures forall i :: 0 <= i < |fs| ==> r[i] == fs[i] || r[i].1 == Str(addr)
    ensures forall i :: 0 <= i < |fs| && fs[i].0 != "reference" && fs[i].0 != "display" ==> r[i] == fs[i]
    ensures Has(fs, "reference") ==> Get(r, "reference") == Some(Str(addr))
    ensures Has(fs, "display") ==> Get(r, "display") == Some(Str(addr))
    ensures forall k :: k != "reference" && k != "display" ==> Get(r, k) == Get(fs, k)
  {
    var once := Overwrite(fs, "reference", Str(addr));
    var twice := Overwrite(once, "display", Str(addr));
    RetargetGet(fs, addr);
    twice
  }

  lemma RetargetGet(fs: Fields, addr: string)
    ensures var r := Overwrite(Overwrite(fs, "reference", Str(addr)), "display", Str(addr));
            (Has(fs, "reference") ==> Get(r, "reference") == Some(Str(addr)))
            && (Has(fs, "display") ==> Get(r, "display") == Some(Str(addr)))
            && (forall k :: k != "reference" && k != "display" ==> Get(r, k) == Get(fs, k))
  {
    var once := Overwrite(fs, "reference", Str(addr));
    if Has(fs, "reference") {
      OverwriteGet(fs, "reference", Str(addr));
    } else {
      OverwriteAbsent(fs, "reference", Str(addr));
    }
    if Has(once, "display") {
      OverwriteGet(once, "display", Str(addr));
    } else {
      OverwriteAbsent(once, "display", Str(addr));
    }
  }

  lemma {:induction false} OverwriteAbsent(fs: Fields, k: string, v: Value)
    requires !Has(fs, k)
    ensures Overwrite(fs, k, v) == fs
  {
    if fs != [] {
      OverwriteAbsent(fs[1..], k, v);
    }
  }

  /**
   * What visiting one node does before its children are walked: a mapped
   * reference is retargeted; a missing placeholder-kind reference gets a
   * placeholder and a map entry while the node itself keeps its reference.
   */
  function VisitReference(fs: Fields, w: Walk, ctx: Context): (r: Result<Kids>)
    ensures r.Ok? ==> |r.value.fields| == |fs| && Keys(r.value.fields) == Keys(fs)
    ensures r.Ok? ==> forall i :: 0 <= i < |fs| ==> r.value.fields[i].0 == fs[i].0
    ensures r.Ok? ==> forall i :: 0 <= i < |fs| ==> r.value.fields[i] == fs[i] || !r.value.fields[i].1.Obj?
    ensures r.Ok? ==> forall i :: 0 <= i < |fs| && fs[i].0 != "reference" && fs[i].0 != "display" ==> r.value.fields[i] == fs[i]
    ensures r.Ok? ==> Grows(w, r.value.walk, ctx) && OneKeyEach(w, r.value.walk)
  {
    match Probe(fs)
    case Err(f) => Err(f)
    case Ok(None) => Ok(Kids(fs, w))
    case Ok(Some(ref)) =>
      if ref in w.refs then Ok(Kids(Retarget(fs, w.refs[ref]), w))
      else if ctx.placeholders && IsStubReference(ref) then
        PlaceholderGrows(w, ref, ctx);
        Ok(Kids(fs, WithPlaceholder(w, ref, ctx)))
      else Ok(Kids(fs, w))
  }

  /** The state after a placeholder for the missing `ref` has been made. */
  function WithPlaceholder(w: Walk, ref: string, ctx: Context): Walk
  {
    var t := BeforeSlash(ref);
    var id := ctx.uuid(w.ids);
    Walk(w.refs[ref := t + "/" + id], w.ids + 1, w.made + [Dummy(t, id)])
  }

  lemma PlaceholderGrows(w: Walk, ref: string, ctx: Context)
    requires ctx.placeholders && IsStubReference(ref) && ref !in w.refs
    ensures Grows(w, WithPlaceholder(w, ref, ctx), ctx) && OneKeyEach(w, WithPlaceholder(w, ref, ctx))
  {
    var w' := WithPlaceholder(w, ref, ctx);
    assert w'.made[..|w.made|] == w.made;
    assert w'.made[|w.made|] == Dummy(BeforeSlash(ref), ctx.uuid(w.ids));
  }

  /**
   * The threaded state only grows: existing mappings stay, new ones are for
   * placeholder-kind references, and each identifier drawn went to exactly one
   * new placeholder, appended in order. Without placeholders nothing changes.
   */
  ghost predicate Grows(w: Walk, w': Walk, ctx: Context)
  {
    && w.ids <= w'.ids
    && |w'.made| == |w.made| + (w'.ids - w.ids)
    && w'.made[..|w.made|] == w.made
    && (forall j :: |w.made| <= j < |w'.made| ==> IsPlaceholder(w'.made[j], ctx.uuid(w.ids + (j - |w.made|))))
    && (forall a :: a in w.refs ==> a in w'.refs && w'.refs[a] == w.refs[a])
    && (forall a :: a in w'.refs && a !in w.refs ==> IsStubReference(a))
    && (!ctx.placeholders ==> w' == w)
  }

  lemma GrowsTransitive(w0: Walk, w1: Walk, w2: Walk, ctx: Context)
    requires Grows(w0, w1, ctx) && Grows(w1, w2, ctx)
    ensures Grows(w0, w2, ctx)
  {
    assert w2.made[..|w0.made|] == w2.made[..|w1.made|][..|w0.made|];
    forall j | |w0.made| <= j < |w2.made|
      ensures IsPlaceholder(w2.made[j], ctx.uuid(w0.ids + (j - |w0.made|)))
    {
      if j < |w1.made| {
        assert w2.made[j] == w2.made[..|w1.made|][j];
      }
    }
  }

  /**
   * The map gained one reference per placeholder made. As the map only grows
   * (`Grows`), each placeholder has its own new reference: no reference gets
   * a second placeholder.
   */
  predicate OneKeyEach(w: Walk, w': Walk)
  {
    |w'.refs| == |w.refs| + (|w'.made| - |w.made|)
  }

  /**
   * `replace_reference(obj, referenceMap)` on one value. A value that is not a
   * dict fails: the `in` test, the subscript or the final `.items()` raises.
   */
  function RewriteNode(node: Value, w: Walk, ctx: Context): (r: Result<Step>)
    ensures r.Ok? ==> node.Obj? && r.value.node.Obj? && |r.value.node.fields| == |node.fields|
    ensures r.Ok? ==> forall i :: 0 <= i < |node.fields| ==> r.value.node.fields[i].0 == node.fields[i].0
    ensures r.Ok? ==> Grows(w, r.value.walk, ctx)
    decreases node, 1
  {
    if !node.Obj? then
      match In(node, "reference")
      case Err(f) => Err(f)
      case Ok(true) => Err(TypeError)
      case Ok(false) => Err(AttributeError)
    else
      match VisitReference(node.fields, w, ctx)
      case Err(f) => Err(f)
      case Ok(v) =>
        assert forall i :: 0 <= i < |v.fields| && v.fields[i].1.Obj? ==> v.fields[i].1 < node by {
          forall i | 0 <= i < |v.fields| && v.fields[i].1.Obj? ensures v.fields[i].1 < node {
            assert v.fields[i] == node.fields[i];
          }
        }
        match RewriteChildren(node, v.fields, v.walk, ctx)
        case Err(f) => Err(f)
        case Ok(k) =>
          GrowsTransitive(w, v.walk, k.walk, ctx);
          Ok(Step(Obj(k.fields), k.walk))
  }

  /** The loop over `obj.items()`, recursing into the dict-valued ones, in order. */
  function RewriteChildren(ghost parent: Value, fs: Fields, w: Walk, ctx: Context): (r: Result<Kids>)
    requires forall i :: 0 <= i < |fs| && fs[i].1.Obj? ==> fs[i].1 < parent
    ensures r.Ok? ==> |r.value.fields| == |fs|
    ensures r.Ok? ==> forall i :: 0 <= i < |fs| ==> r.value.fields[i].0 == fs[i].0
    ensures r.Ok? ==> forall i :: 0 <= i < |fs| && !fs[i].1.Obj? ==> r.value.fields[i] == fs[i]
    ensures r.Ok? ==> forall i :: 0 <= i < |fs| && fs[i].1.Obj? ==> r.value.fields[i].1.Obj?
    ensures r.Ok? ==> Grows(w, r.value.walk, ctx)
    decreases parent, 0, |fs|
  {
    if fs == [] then Ok(Kids([], w))
    else
      var n := |fs| - 1;
      assert fs == fs[..n] + [fs[n]];
      match RewriteChildren(parent, fs[..n], w, ctx)
      case Err(f) => Err(f)
      case Ok(k) =>
        if !fs[n].1.Obj? then
          KidsSnoc(fs[..n], k.fields, fs[n], fs[n]);
          Ok(Kids(k.fields + [fs[n]], k.walk))
        else
          match RewriteNode(fs[n].1, k.walk, ctx)
          case Err(f) => Err(f)
          case Ok(s) =>
            GrowsTransitive(w, k.walk, s.walk, ctx);
            KidsSnoc(fs[..n], k.fields, fs[n], (fs[n].0, s.node));
            Ok(Kids(k.fields + [(fs[n].0, s.node)], s.walk))
  }

  /** The shape `RewriteChildren` promises, one field further. */
  lemma KidsSnoc(pre: Fields, out: Fields, y: (string, Value), x: (string, Value))
    requires |out| == |pre|
    requires forall i :: 0 <= i < |pre| ==> out[i].0 == pre[i].0
    requires forall i :: 0 <= i < |pre| && !pre[i].1.Obj? ==> out[i] == pre[i]
    requires forall i :: 0 <= i < |pre| && pre[i].1.Obj? ==> out[i].1.Obj?
    requires x.0 == y.0 && (!y.1.Obj? ==> x == y) && (y.1.Obj? ==> x.1.Obj?)
    ensures |out + [x]| == |pre + [y]|
    ensures forall i :: 0 <= i < |pre + [y]| ==> (out + [x])[i].0 == (pre + [y])[i].0
    ensures forall i :: 0 <= i < |pre + [y]| && !(pre + [y])[i].1.Obj? ==> (out + [x])[i] == (pre + [y])[i]
    ensures forall i :: 0 <= i < |pre + [y]| && (pre + [y])[i].1.Obj? ==> (out + [x])[i].1.Obj?
  {
  }

  /** The walk as a recursive procedure with a loop over the children, as the source runs it. */
  method ReplaceReferences(node: Value, w: Walk, ctx: Context) returns (r: Result<Step>)
    ensures r == RewriteNode(node, w, ctx)
    decreases node, 1
  {
    if !node.Obj? {
      return RewriteNode(node, w, ctx);
    }
    var visited := VisitReference(node.fields, w, ctx);
    if visited.Err? {
      return Err(visited.fault);
    }
    var fs := visited.value.fields;
    assert forall i :: 0 <= i < |fs| && fs[i].1.Obj? ==> fs[i].1 < node by {
      forall i | 0 <= i < |fs| && fs[i].1.Obj? ensures fs[i].1 < node {
        assert fs[i] == node.fields[i];
      }
    }
    var kids := WalkChildren(node, fs, visited.value.walk, ctx);
    if kids.Err? {
      return Err(kids.fault);
    }
    r := Ok(Step(Obj(kids.value.fields), kids.value.walk));
  }

  /** `for _, value in obj.items(): if isinstance(value, dict): …` */
  method WalkChildren(ghost parent: Value, fs: Fields, w: Walk, ctx: Context) returns (r: Result<Kids>)
    requires forall i :: 0 <= i < |fs| && fs[i].1.Obj? ==> fs[i].1 < parent
    ensures r == RewriteChildren(parent, fs, w, ctx)
    decreases parent, 0
  {
    var done: Fields := [];
    var cur := w;
    for i := 0 to |fs|
      invariant RewriteChildren(parent, fs[..i], w, ctx) == Ok(Kids(done, cur))
    {
      ChildrenPrefixStep(parent, fs, i, done, cur, w, ctx);
      if fs[i].1.Obj? {
        var s := ReplaceReferences(fs[i].1, cur, ctx);
        if s.Err? {
          ChildrenErrorSticks(parent, fs, i + 1, w, ctx);
          return Err(s.fault);
        }
        done := done + [(fs[i].0, s.value.node)];
        cur := s.value.walk;
      } else {
        done := done + [fs[i]];
      }
    }
    assert fs[..|fs|] == fs;
    r := Ok(Kids(done, cur));
  }

  /** `RewriteChildren` over one more field of `fs`. */
  lemma ChildrenPrefixStep(parent: Value, fs: Fields, i: nat, done: Fields, cur: Walk, w: Walk, ctx: Context)
    requires forall i :: 0 <= i < |fs| && fs[i].1.Obj? ==> fs[i].1 < parent
    requires i < |fs| && RewriteChildren(parent, fs[..i], w, ctx) == Ok(Kids(done, cur))
    ensures !fs[i].1.Obj? ==> RewriteChildren(parent, fs[..i + 1], w, ctx) == Ok(Kids(done + [fs[i]], cur))
    ensures fs[i].1.Obj? ==>
              RewriteChildren(parent, fs[..i + 1], w, ctx) ==
                match RewriteNode(fs[i].1, cur, ctx)
                case Err(f) => Err(f)
                case Ok(s) => Ok(Kids(done + [(fs[i].0, s.node)], s.walk))
  {
    assert fs[..i + 1][..i] == fs[..i];
    assert fs[..i + 1][i] == fs[i];
  }

  lemma {:induction false} ChildrenErrorSticks(parent: Value, fs: Fields, n: nat, w: Walk, ctx: Context)
    requires forall i :: 0 <= i < |fs| && fs[i].1.Obj? ==> fs[i].1 < parent
    requires n <= |fs| && RewriteChildren(parent, fs[..n], w, ctx).Err?
    ensures RewriteChildren(parent, fs, w, ctx) == RewriteChildren(parent, fs[..n], w, ctx)
    decreases |fs| - n
  {
    if n < |fs| {
      assert fs[..n + 1][..n] == fs[..n];
      ChildrenErrorSticks(parent, fs, n + 1, w, ctx);
    } else {
      assert fs[..n] == fs;
    }
  }

  /** The walk of one node adds one map entry per placeholder it makes. */
  lemma {:induction false} NodeOneKeyEach(node: Value, w: Walk, ctx: Context)
    requires RewriteNode(node, w, ctx).Ok?
    ensures OneKeyEach(w, RewriteNode(node, w, ctx).value.walk)
    decreases node, 1
  {
    var v := VisitReference(node.fields, w, ctx).value;
    assert forall i :: 0 <= i < |v.fields| && v.fields[i].1.Obj? ==> v.fields[i].1 < node by {
      forall i | 0 <= i < |v.fields| && v.fields[i].1.Obj? ensures v.fields[i].1 < node {
        assert v.fields[i] == node.fields[i];
      }
    }
    ChildrenOneKeyEach(node, v.fields, v.walk, ctx);
  }

  /** The walk of a node's children adds one map entry per placeholder it makes. */
  lemma {:induction false} ChildrenOneKeyEach(parent: Value, fs: Fields, w: Walk, ctx: Context)
    requires forall i :: 0 <= i < |fs| && fs[i].1.Obj? ==> fs[i].1 < parent
    requires RewriteChildren(parent, fs, w, ctx).Ok?
    ensures OneKeyEach(w, RewriteChildren(parent, fs, w, ctx).value.walk)
    decreases parent, 0, |fs|
  {
    if fs != [] {
      var n := |fs| - 1;
      ChildrenOneKeyEach(parent, fs[..n], w, ctx);
      var k := RewriteChildren(parent, fs[..n], w, ctx).value;
      if fs[n].1.Obj? {
        NodeOneKeyEach(fs[n].1, k.walk, ctx);
      }
    }
  }

  // ------------------------------------------------------------- properties

  /** A dict none of whose fields holds a dict: the walk has nothing to descend into. */
  predicate IsFlat(fs: Fields)
  {
    forall i :: 0 <= i < |fs| ==> !fs[i].1.Obj?
  }

  lemma {:induction false} FlatChildrenUnchanged(parent: Value, fs: Fields, w: Walk, ctx: Context)
    requires IsFlat(fs)
    ensures RewriteChildren(parent, fs, w, ctx) == Ok(Kids(fs, w))
    decreases |fs|
  {
    if fs != [] {
      var n := |fs| - 1;
      FlatChildrenUnchanged(parent, fs[..n], w, ctx);
      assert fs[..n] + [fs[n]] == fs;
    }
  }

  /** On a node without dict-valued fields the walk is just the visit of the node itself. */
  lemma FlatNode(fs: Fields, w: Walk, ctx: Context)
    requires IsFlat(fs)
    ensures VisitReference(fs, w, ctx).Ok? ==>
              RewriteNode(Obj(fs), w, ctx) == Ok(Step(Obj(VisitReference(fs, w, ctx).value.fields), VisitReference(fs, w, ctx).value.walk))
    ensures VisitReference(fs, w, ctx).Err? ==> RewriteNode(Obj(fs), w, ctx).Err?
  {
    var v := VisitReference(fs, w, ctx);
    if v.Ok? {
      assert IsFlat(v.value.fields) by {
        forall i | 0 <= i < |v.value.fields| ensures !v.value.fields[i].1.Obj? {
          assert v.value.fields[i] == fs[i] || !v.value.fields[i].1.Obj?;
        }
      }
      FlatChildrenUnchanged(Obj(fs), v.value.fields, v.value.walk, ctx);
    }
  }

  /** Same keys at the same places and the same non-dict values: lookups of non-dict values agree. */
  lemma {:induction false} SameScalarsGet(a: Fields, b: Fields, k: string)
    requires |a| == |b|
    requires forall i :: 0 <= i < |a| ==> b[i].0 == a[i].0
    requires forall i :: 0 <= i < |a| && !a[i].1.Obj? ==> b[i] == a[i]
    requires Get(a, k).Some? && !Get(a, k).value.Obj?
    ensures Get(b, k) == Get(a, k)
  {
    if a[0].0 != k {
      SameScalarsGet(a[1..], b[1..], k);
    }
  }

  /** The visit a node's walk starts with decides its reference and display; the children cannot change them. */
  lemma {:induction false} WalkKeepsVisitedScalars(fs: Fields, w: Walk, ctx: Context, k: string)
    requires VisitReference(fs, w, ctx).Ok?
    requires Get(VisitReference(fs, w, ctx).value.fields, k).Some? && !Get(VisitReference(fs, w, ctx).value.fields, k).value.Obj?
    ensures var r := RewriteNode(Obj(fs), w, ctx);
            r.Ok? ==> Get(r.value.node.fields, k) == Get(VisitReference(fs, w, ctx).value.fields, k)
  {
    var node := Obj(fs);
    var v := VisitReference(fs, w, ctx).value;
    assert forall i :: 0 <= i < |v.fields| && v.fields[i].1.Obj? ==> v.fields[i].1 < node by {
      forall i | 0 <= i < |v.fields| && v.fields[i].1.Obj? ensures v.fields[i].1 < node {
        assert v.fields[i] == node.fields[i];
      }
    }
    var kids := RewriteChildren(node, v.fields, v.walk, ctx);
    if kids.Ok? {
      SameScalarsGet(v.fields, kids.value.fields, k);
    }
  }

  /** A reference found in the map is replaced by the mapped address, and so is `display` when present. */
  lemma MappedReferenceIsRewritten(fs: Fields, w: Walk, ctx: Context, ref: string)
    requires Probe(fs) == Ok(Some(ref)) && ref in w.refs
    ensures var r := RewriteNode(Obj(fs), w, ctx);
            r.Ok? ==> Get(r.value.node.fields, "reference") == Some(Str(w.refs[ref]))
                      && (Has(fs, "display") ==> Get(r.value.node.fields, "display") == Some(Str(w.refs[ref])))
                      && r.value.walk.refs[ref] == w.refs[ref]
  {
    WalkKeepsVisitedScalars(fs, w, ctx, "reference");
    if Has(fs, "display") {
      WalkKeepsVisitedScalars(fs, w, ctx, "display");
    }
  }

  /**
   * A missing Organization, Practitioner or Location reference yields one
   * placeholder, with the next identifier, and a map entry for the reference;
   * the node that triggered it keeps its own reference as it was.
   */
  lemma MissingStubReferenceMakesOnePlaceholder(fs: Fields, w: Walk, ctx: Context, ref: string)
    requires Probe(fs) == Ok(Some(ref)) && ref !in w.refs && ctx.placeholders && IsStubReference(ref)
    ensures var r := RewriteNode(Obj(fs), w, ctx);
            var addr := BeforeSlash(ref) + "/" + ctx.uuid(w.ids);
            r.Ok? ==> && Get(r.value.node.fields, "reference") == Some(Str(ref))
                      && r.value.walk.refs[ref] == addr
                      && |r.value.walk.made| > |w.made|
                      && r.value.walk.made[|w.made|] == Dummy(BeforeSlash(ref), ctx.uuid(w.ids))
  {
    var v := VisitReference(fs, w, ctx).value;
    assert v.fields == fs;
    WalkKeepsVisitedScalars(fs, w, ctx, "reference");
    var r := RewriteNode(Obj(fs), w, ctx);
    if r.Ok? {
      var w1 := WithPlaceholder(w, ref, ctx);
      assert w1.made[|w.made|] == Dummy(BeforeSlash(ref), ctx.uuid(w.ids));
      assert r.value.walk.made[..|w1.made|] == w1.made;
      assert r.value.walk.made[|w.made|] == r.value.walk.made[..|w1.made|][|w.made|];
    }
  }

  /** Any other reference the map lacks is left as it was, and still lacks a mapping afterwards. */
  lemma UnmappedReferenceUnchanged(fs: Fields, w: Walk, ctx: Context, ref: string)
    requires Probe(fs) == Ok(Some(ref)) && ref !in w.refs && !(ctx.placeholders && IsStubReference(ref))
    ensures var r := RewriteNode(Obj(fs), w, ctx);
            r.Ok? ==> Get(r.value.node.fields, "reference") == Some(Str(ref)) && ref !in r.value.walk.refs
  {
    WalkKeepsVisitedScalars(fs, w, ctx, "reference");
  }

  /**
   * The walk descends only into dict-valued fields: a list is never entered,
   * whatever it holds, and no field other than `reference` and `display` that
   * holds a non-dict value changes.
   */
  lemma ListsAreNotEntered(fs: Fields, w: Walk, ctx: Context, i: int)
    requires 0 <= i < |fs| && !fs[i].1.Obj? && fs[i].0 != "reference" && fs[i].0 != "display"
    ensures var r := RewriteNode(Obj(fs), w, ctx);
            r.Ok? ==> r.value.node.fields[i] == fs[i]
  {
    var node := Obj(fs);
    var v := VisitReference(fs, w, ctx);
    if v.Ok? {
      assert forall j :: 0 <= j < |v.value.fields| && v.value.fields[j].1.Obj? ==> v.value.fields[j].1 < node by {
        forall j | 0 <= j < |v.value.fields| && v.value.fields[j].1.Obj? ensures v.value.fields[j].1 < node {
          assert v.value.fields[j] == node.fields[j];
        }
      }
      assert v.value.fields[i] == fs[i];
    }
  }

  /** A placeholder has no reference and no dict-valued field: visiting it later changes nothing. */
  lemma PlaceholderIsLeftAlone(v: Value, id: string, w: Walk, ctx: Context)
    requires IsPlaceholder(v, id)
    ensures RewriteNode(v, w, ctx) == Ok(Step(v, w))
  {
    var fs := v.fields;
    KeysIndex(fs, 0);
    KeysIndex(fs, 1);
    KeysIndex(fs, 2);
    KeysIndex(fs, 3);
    assert Keys(fs) == ["resourceType", "id", "name", "identifier"];
    assert Probe(fs) == Ok(None);
    assert IsFlat(fs);
    FlatNode(fs, w, ctx);
  }

  /** A leaf holding a missing placeholder-kind reference: one placeholder, the leaf unchanged. */
  lemma MissingLeaf(ref: string, w: Walk, ctx: Context)
    requires Contains(ref, "/") && IsStubReference(ref) && ref !in w.refs && ctx.placeholders
    ensures RewriteNode(Obj([("reference", Str(ref))]), w, ctx) == Ok(Step(Obj([("reference", Str(ref))]), WithPlaceholder(w, ref, ctx)))
  {
    var cfs := [("reference", Str(ref))];
    assert Probe(cfs) == Ok(Some(ref));
    assert IsFlat(cfs);
    FlatNode(cfs, w, ctx);
  }

  /** A leaf holding a mapped reference: pointed at the mapped address, the state unchanged. */
  lemma MappedLeaf(ref: string, w: Walk, ctx: Context)
    requires Contains(ref, "/") && ref in w.refs
    ensures RewriteNode(Obj([("reference", Str(ref))]), w, ctx) == Ok(Step(Obj([("reference", Str(w.refs[ref]))]), w))
  {
    var cfs := [("reference", Str(ref))];
    assert Probe(cfs) == Ok(Some(ref));
    assert IsFlat(cfs);
    assert Retarget(cfs, w.refs[ref]) == [("reference", Str(w.refs[ref]))];
    FlatNode(cfs, w, ctx);
  }

  /** Walking one more dict-valued field after the ones before it. */
  lemma ChildrenSnoc(parent: Value, fs: Fields, key: string, v: Value, w: Walk, ctx: Context)
    requires forall i :: 0 <= i < |fs| && fs[i].1.Obj? ==> fs[i].1 < parent
    requires v.Obj? && v < parent
    ensures forall i :: 0 <= i < |fs + [(key, v)]| && (fs + [(key, v)])[i].1.Obj? ==> (fs + [(key, v)])[i].1 < parent
    ensures RewriteChildren(parent, fs + [(key, v)], w, ctx) ==
            match RewriteChildren(parent, fs, w, ctx)
            case Err(f) => Err(f)
            case Ok(k) =>
              match RewriteNode(v, k.walk, ctx)
              case Err(f) => Err(f)
              case Ok(s) => Ok(Kids(k.fields + [(key, s.node)], s.walk))
  {
    var gs := fs + [(key, v)];
    assert gs[..|gs| - 1] == fs;
    assert gs[|gs| - 1] == (key, v);
  }

  /**
   * Two sibling dicts that both point at the same missing Organization,
   * Practitioner or Location: the first makes the one placeholder and keeps its
   * reference, the second is pointed at the placeholder.
   */
  lemma SecondOccurrenceReusesPlaceholder(ref: string, w: Walk, ctx: Context)
    requires Contains(ref, "/") && IsStubReference(ref) && ref !in w.refs && ctx.placeholders
    ensures var child := Obj([("reference", Str(ref))]);
            var r := RewriteNode(Obj([("first", child), ("second", child)]), w, ctx);
            var addr := BeforeSlash(ref) + "/" + ctx.uuid(w.ids);
            && r.Ok?
            && r.value.node == Obj([("first", child), ("second", Obj([("reference", Str(addr))]))])
            && r.value.walk == WithPlaceholder(w, ref, ctx)
  {
    var child := Obj([("reference", Str(ref))]);
    var top := [("first", child), ("second", child)];
    assert Get(top, "reference") == None;
    assert VisitReference(top, w, ctx) == Ok(Kids(top, w));
    TwoSiblingLeaves(ref, w, ctx);
  }

  /** The children walk of `SecondOccurrenceReusesPlaceholder`: the first leaf, then the second. */
  lemma TwoSiblingLeaves(ref: string, w: Walk, ctx: Context)
    requires Contains(ref, "/") && IsStubReference(ref) && ref !in w.refs && ctx.placeholders
    ensures var child := Obj([("reference", Str(ref))]);
            var top := [("first", child), ("second", child)];
            var addr := BeforeSlash(ref) + "/" + ctx.uuid(w.ids);
            RewriteChildren(Obj(top), top, w, ctx)
              == Ok(Kids([("first", child), ("second", Obj([("reference", Str(addr))]))], WithPlaceholder(w, ref, ctx)))
  {
    var child := Obj([("reference", Str(ref))]);
    var w1 := WithPlaceholder(w, ref, ctx);
    MissingLeaf(ref, w, ctx);
    MappedLeaf(ref, w1, ctx);
    TwoSiblings(Obj([("first", child), ("second", child)]), child, Obj([("reference", Str(w1.refs[ref]))]), w, w1, ctx);
  }

  /** Two siblings holding the same record: the first visit changes the walk, the second sees the change. */
  lemma TwoSiblings(node: Value, child: Value, second: Value, w: Walk, w1: Walk, ctx: Context)
    requires node == Obj([("first", child), ("second", child)]) && child.Obj?
    requires RewriteNode(child, w, ctx) == Ok(Step(child, w1))
    requires RewriteNode(child, w1, ctx) == Ok(Step(second, w1))
    ensures RewriteChildren(node, node.fields, w, ctx) == Ok(Kids([("first", child), ("second", second)], w1))
  {
    var top := node.fields;
    assert top[0] == ("first", child);
    assert child < node;
    assert RewriteChildren(node, [], w, ctx) == Ok(Kids([], w));
    ChildrenSnocOk(node, [], [], "first", child, w, w, Step(child, w1), ctx);
    assert [] + [("first", child)] == [("first", child)];
    ChildrenSnocOk(node, [("first", child)], [("first", child)], "second", child, w, w1, Step(second, w1), ctx);
    assert [("first", child)] + [("second", child)] == top;
    assert [("first", child)] + [("second", second)] == [("first", child), ("second", second)];
  }

  /** `ChildrenSnoc` when both the prefix and the new child succeed. */
  lemma ChildrenSnocOk(parent: Value, fs: Fields, ks: Fields, key: string, v: Value, w: Walk, w1: Walk, s: Step, ctx: Context)
    requires forall i :: 0 <= i < |fs| && fs[i].1.Obj? ==> fs[i].1 < parent
    requires v.Obj? && v < parent
    requires RewriteChildren(parent, fs, w, ctx) == Ok(Kids(ks, w1))
    requires RewriteNode(v, w1, ctx) == Ok(s)
    ensures RewriteChildren(parent, fs + [(key, v)], w, ctx) == Ok(Kids(ks + [(key, s.node)], s.walk))
  {
    ChildrenSnoc(parent, fs, key, v, w, ctx);
  }
}
