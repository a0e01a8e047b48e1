/**
 * The two helpers only the service variant has: the top-level
 * `replace_reference(obj, old_ref, new_ref)`, which points one reference at a
 * new address wherever the walk meets it, and `find_entry`, the first bundle
 * entry holding a given resource.
 */
module App {
  import opened Json
  import References

  // ------------------------------------------------------------ replace_reference

  /**
   * `"reference" in obj and "/" in obj["reference"]` followed by `ref == old_ref`
   * on a dict: whether this node is the one to retarget.
   */
  function Matches(fs: Fields, oldRef: string): (r: Result<bool>)
    ensures r == Ok(true) <==> Get(fs, "reference") == Some(Str(oldRef)) && Contains(oldRef, "/")
    ensures r.Err? <==> Get(fs, "reference").Some? && In(Get(fs, "reference").value, "/").Err?
    ensures r.Err? ==> r.fault == TypeError
  {
    match Get(fs, "reference")
    case None => Ok(false)
    case Some(v) =>
      match In(v, "/")
      case Err(f) => Err(f)
      case Ok(b) => Ok(b && v == Str(oldRef))
  }

  /** The fields a dict continues with: retargeted when it matched. */
  function Visited(fs: Fields, matched: bool, newRef: string): (r: Fields)
    ensures |r| == |fs|
    ensures forall i :: 0 <= i < |fs| ==> r[i].0 == fs[i].0 && (r[i] == fs[i] || !r[i].1.Obj?)
    ensures !matched ==> r == fs
  {
    if matched then References.Retarget(fs, newRef) else fs
  }

  /**
   * `replace_reference(obj, old_ref, new_ref)` on one value. A dict is visited
   * and then its dict-valued fields are walked; a list has each element walked.
   * Any other value raises: the `in` test rejects numbers, booleans and None,
   * and a string fails at the subscript or at `.items()`.
   */
  function ReplaceNode(node: Value, oldRef: string, newRef: string): (r: Result<Value>)
    ensures r.Ok? ==> (node.Obj? && r.value.Obj? && |r.value.fields| == |node.fields|)
                      || (node.Arr? && r.value.Arr? && |r.value.items| == |node.items|)
    ensures node.Arr? && Str("reference") in node.items ==> r == Err(TypeError)
    ensures node.Null? || node.Bool? || node.Int? || node.Float? ==> r == Err(TypeError)
    ensures node.Date? ==> r == Err(AttributeError)
    ensures node.Str? ==> r == Err(if Contains(node.s, "reference") then TypeError else AttributeError)
    decreases node, 1
  {
    match node
    case Obj(fs) =>
      (match Matches(fs, oldRef)
       case Err(f) => Err(f)
       case Ok(m) =>
        var vs := Visited(fs, m, newRef);
        assert forall i :: 0 <= i < |vs| && vs[i].1.Obj? ==> vs[i].1 < node by {
          forall i | 0 <= i < |vs| && vs[i].1.Obj? ensures vs[i].1 < node {
            assert vs[i] == fs[i];
          }
        }
        (match ReplaceFields(node, vs, oldRef, newRef)
         case Err(f) => Err(f)
         case Ok(done) => Ok(Obj(done))))
    case Arr(items) =>
      if Str("reference") in items then Err(TypeError)
      else
        (match ReplaceItems(node, items, oldRef, newRef)
         case Err(f) => Err(f)
         case Ok(done) => Ok(Arr(done)))
    case Str(s) => if Contains(s, "reference") then Err(TypeError) else Err(AttributeError)
    case Date(_) => Err(AttributeError)
    case _ => Err(TypeError)
  }

  /** The loop over `obj.items()`: only the dict-valued fields are walked, in order. */
  function ReplaceFields(ghost parent: Value, fs: Fields, oldRef: string, newRef: string): (r: Result<Fields>)
    requires forall i :: 0 <= i < |fs| && fs[i].1.Obj? ==> fs[i].1 < parent
    ensures r.Ok? ==> |r.value| == |fs|
    ensures r.Ok? ==> forall i :: 0 <= i < |fs| ==> r.value[i].0 == fs[i].0
    ensures r.Ok? ==> forall i :: 0 <= i < |fs| && !fs[i].1.Obj? ==> r.value[i] == fs[i]
    ensures r.Ok? ==> forall i :: 0 <= i < |fs| && fs[i].1.Obj? ==> ReplaceNode(fs[i].1, oldRef, newRef) == Ok(r.value[i].1)
    decreases parent, 0, |fs|
  {
    if fs == [] then Ok([])
    else
      var n := |fs| - 1;
      match ReplaceFields(parent, fs[..n], oldRef, newRef)
      case Err(f) => Err(f)
      case Ok(done) =>
        if !fs[n].1.Obj? then Ok(done + [fs[n]])
        else
          match ReplaceNode(fs[n].1, oldRef, newRef)
          case Err(f) => Err(f)
          case Ok(v) => Ok(done + [(fs[n].0, v)])
  }

  /** The loop over the elements of a list: every element is walked, in order. */
  function ReplaceItems(ghost parent: Value, items: seq<Value>, oldRef: string, newRef: string): (r: Result<seq<Value>>)
    requires forall i :: 0 <= i < |items| ==> items[i] < parent
    ensures r.Ok? ==> |r.value| == |items|
    ensures r.Ok? ==> forall i :: 0 <= i < |items| ==> ReplaceNode(items[i], oldRef, newRef) == Ok(r.value[i])
    decreases parent, 0, |items|
  {
    if items == [] then Ok([])
    else
      var n := |items| - 1;
      match ReplaceItems(parent, items[..n], oldRef, newRef)
      case Err(f) => Err(f)
      case Ok(done) =>
        match ReplaceNode(items[n], oldRef, newRef)
        case Err(f) => Err(f)
        case Ok(v) => Ok(done + [v])
  }

  lemma {:induction false} FieldsErrorSticks(parent: Value, fs: Fields, n: nat, oldRef: string, newRef: string)
    requires forall i :: 0 <= i < |fs| && fs[i].1.Obj? ==> fs[i].1 < parent
    requires n <= |fs| && ReplaceFields(parent, fs[..n], oldRef, newRef).Err?
    ensures ReplaceFields(parent, fs, oldRef, newRef) == ReplaceFields(parent, fs[..n], oldRef, newRef)
    decreases |fs| - n
  {
    if n < |fs| {
      assert fs[..n + 1][..n] == fs[..n];
      FieldsErrorSticks(parent, fs, n + 1, oldRef, newRef);
    } else {
      assert fs[..n] == fs;
    }
  }

  lemma {:induction false} ItemsErrorSticks(parent: Value, items: seq<Value>, n: nat, oldRef: string, newRef: string)
    requires forall i :: 0 <= i < |items| ==> items[i] < parent
    requires n <= |items| && ReplaceItems(parent, items[..n], oldRef, newRef).Err?
    ensures ReplaceItems(parent, items, oldRef, newRef) == ReplaceItems(parent, items[..n], oldRef, newRef)
    decreases |items| - n
  {
    if n < |items| {
      assert items[..n + 1][..n] == items[..n];
      ItemsErrorSticks(parent, items, n + 1, oldRef, newRef);
    } else {
      assert items[..n] == items;
    }
  }

  /** `ReplaceFields` over one more field. */
  lemma FieldsStep(parent: Value, fs: Fields, i: nat, done: Fields, oldRef: string, newRef: string)
    requires forall i :: 0 <= i < |fs| && fs[i].1.Obj? ==> fs[i].1 < parent
    requires i < |fs| && ReplaceFields(parent, fs[..i], oldRef, newRef) == Ok(done)
    ensures !fs[i].1.Obj? ==> ReplaceFields(parent, fs[..i + 1], oldRef, newRef) == Ok(done + [fs[i]])
    ensures fs[i].1.Obj? ==>
              ReplaceFields(parent, fs[..i + 1], oldRef, newRef) ==
                match ReplaceNode(fs[i].1, oldRef, newRef)
                case Err(f) => Err(f)
                case Ok(v) => Ok(done + [(fs[i].0, v)])
  {
    assert fs[..i + 1][..i] == fs[..i];
    assert fs[..i + 1][i] == fs[i];
  }

  /** `ReplaceItems` over one more element. */
  lemma ItemsStep(parent: Value, items: seq<Value>, i: nat, done: seq<Value>, oldRef: string, newRef: string)
    requires forall i :: 0 <= i < |items| ==> items[i] < parent
    requires i < |items| && ReplaceItems(parent, items[..i], oldRef, newRef) == Ok(done)
    ensures ReplaceItems(parent, items[..i + 1], oldRef, newRef) ==
              match ReplaceNode(items[i], oldRef, newRef)
              case Err(f) => Err(f)
              case Ok(v) => Ok(done + [v])
  {
    assert items[..i + 1][..i] == items[..i];
    assert items[..i + 1][i] == items[i];
  }

  /** `replace_reference` as the source runs it: a recursive procedure with a loop over the fields or the elements. */
  method ReplaceReference(node: Value, oldRef: string, newRef: string) returns (r: Result<Value>)
    ensures r == ReplaceNode(node, oldRef, newRef)
    decreases node, 1
  {
    if node.Obj? {
      var m := Matches(node.fields, oldRef);
      if m.Err? {
        return Err(m.fault);
      }
      var fs := Visited(node.fields, m.value, newRef);
      assert forall i :: 0 <= i < |fs| && fs[i].1.Obj? ==> fs[i].1 < node by {
        forall i | 0 <= i < |fs| && fs[i].1.Obj? ensures fs[i].1 < node {
          assert fs[i] == node.fields[i];
        }
      }
      var done := WalkFields(node, fs, oldRef, newRef);
      r := if done.Err? then Err(done.fault) else Ok(Obj(done.value));
    } else if node.Arr? {
      if Str("reference") in node.items {
        return Err(TypeError);
      }
      var done := WalkItems(node, node.items, oldRef, newRef);
      r := if done.Err? then Err(done.fault) else Ok(Arr(done.value));
    } else {
      r := ReplaceNode(node, oldRef, newRef);
    }
  }

  /** `for key, value in obj.items(): if isinstance(value, dict): replace_reference(value, …)` */
  method WalkFields(ghost parent: Value, fs: Fields, oldRef: string, newRef: string) returns (r: Result<Fields>)
    requires forall i :: 0 <= i < |fs| && fs[i].1.Obj? ==> fs[i].1 < parent
    ensures r == ReplaceFields(parent, fs, oldRef, newRef)
    decreases parent, 0
  {
    var done: Fields := [];
    for i := 0 to |fs|
      invariant ReplaceFields(parent, fs[..i], oldRef, newRef) == Ok(done)
    {
      FieldsStep(parent, fs, i, done, oldRef, newRef);
      if fs[i].1.Obj? {
        var v := ReplaceReference(fs[i].1, oldRef, newRef);
        if v.Err? {
          FieldsErrorSticks(parent, fs, i + 1, oldRef, newRef);
          return Err(v.fault);
        }
        done := done + [(fs[i].0, v.value)];
      } else {
        done := done + [fs[i]];
      }
    }
    assert fs[..|fs|] == fs;
    r := Ok(done);
  }

  /** `for item in obj: replace_reference(item, …)` */
  method WalkItems(ghost parent: Value, items: seq<Value>, oldRef: string, newRef: string) returns (r: Result<seq<Value>>)
    requires forall i :: 0 <= i < |items| ==> items[i] < parent
    ensures r == ReplaceItems(parent, items, oldRef, newRef)
    decreases parent, 0
  {
    var done: seq<Value> := [];
    for i := 0 to |items|
      invariant ReplaceItems(parent, items[..i], oldRef, newRef) == Ok(done)
    {
      var v := ReplaceReference(items[i], oldRef, newRef);
      ItemsStep(parent, items, i, done, oldRef, newRef);
      if v.Err? {
        ItemsErrorSticks(parent, items, i + 1, oldRef, newRef);
        return Err(v.fault);
      }
      done := done + [v.value];
    }
    assert items[..|items|] == items;
    r := Ok(done);
  }

  // ------------------------------------------------------- replace_reference properties

  /** The matching node's reference, and its display when it has one, now hold the newRef address. */
  lemma MatchingReferenceRewritten(fs: Fields, oldRef: string, newRef: string)
    requires Get(fs, "reference") == Some(Str(oldRef)) && Contains(oldRef, "/")
    ensures var r := ReplaceNode(Obj(fs), oldRef, newRef);
            r.Ok? ==> && Get(r.value.fields, "reference") == Some(Str(newRef))
                      && (Has(fs, "display") ==> Get(r.value.fields, "display") == Some(Str(newRef)))
  {
    var vs := Visited(fs, true, newRef);
    var r := ReplaceNode(Obj(fs), oldRef, newRef);
    if r.Ok? {
      assert Get(vs, "reference") == Some(Str(newRef));
      References.SameScalarsGet(vs, r.value.fields, "reference");
      if Has(fs, "display") {
        assert Get(vs, "display") == Some(Str(newRef));
        References.SameScalarsGet(vs, r.value.fields, "display");
      }
    }
  }

  /** A reference that is not `old_ref` (or lacks a slash) keeps its value, and so does the display. */
  lemma OtherReferenceKept(fs: Fields, oldRef: string, newRef: string, k: string)
    requires Get(fs, "reference") != Some(Str(oldRef)) || !Contains(oldRef, "/")
    requires Get(fs, k).Some? && !Get(fs, k).value.Obj?
    ensures var r := ReplaceNode(Obj(fs), oldRef, newRef);
            r.Ok? ==> Get(r.value.fields, k) == Get(fs, k)
  {
    var r := ReplaceNode(Obj(fs), oldRef, newRef);
    if r.Ok? {
      References.SameScalarsGet(fs, r.value.fields, k);
    }
  }

  /** A list held by a dict is not entered: it comes out as it went in, references and all. */
  lemma ListsInDictsNotVisited(fs: Fields, oldRef: string, newRef: string, i: int)
    requires 0 <= i < |fs| && fs[i].1.Arr? && fs[i].0 != "reference" && fs[i].0 != "display"
    ensures var r := ReplaceNode(Obj(fs), oldRef, newRef);
            r.Ok? ==> r.value.fields[i] == fs[i]
  {
  }

  /** A list handed in directly is walked element by element. */
  lemma TopLevelListWalked(items: seq<Value>, oldRef: string, newRef: string)
    ensures var r := ReplaceNode(Arr(items), oldRef, newRef);
            r.Ok? ==> forall i :: 0 <= i < |items| ==> ReplaceNode(items[i], oldRef, newRef) == Ok(r.value.items[i])
  {
  }

  /** An address without a slash matches nothing: the walk changes nothing (or raises). */
  lemma {:induction false} NoSlashNoChange(node: Value, oldRef: string, newRef: string)
    requires !Contains(oldRef, "/")
    ensures ReplaceNode(node, oldRef, newRef).Ok? ==> ReplaceNode(node, oldRef, newRef).value == node
    decreases node, 1
  {
    match node
    case Obj(fs) =>
      assert forall i :: 0 <= i < |fs| && fs[i].1.Obj? ==> fs[i].1 < node;
      NoSlashFields(node, fs, oldRef, newRef);
    case Arr(items) =>
      assert forall i :: 0 <= i < |items| ==> items[i] < node;
      NoSlashItems(node, items, oldRef, newRef);
    case _ =>
  }

  lemma {:induction false} NoSlashFields(parent: Value, fs: Fields, oldRef: string, newRef: string)
    requires !Contains(oldRef, "/")
    requires forall i :: 0 <= i < |fs| && fs[i].1.Obj? ==> fs[i].1 < parent
    ensures ReplaceFields(parent, fs, oldRef, newRef).Ok? ==> ReplaceFields(parent, fs, oldRef, newRef).value == fs
    decreases parent, 0, |fs|
  {
    if fs != [] {
      var n := |fs| - 1;
      NoSlashFields(parent, fs[..n], oldRef, newRef);
      if fs[n].1.Obj? {
        NoSlashNoChange(fs[n].1, oldRef, newRef);
      }
      assert fs[..n] + [fs[n]] == fs;
    }
  }

  lemma {:induction false} NoSlashItems(parent: Value, items: seq<Value>, oldRef: string, newRef: string)
    requires !Contains(oldRef, "/")
    requires forall i :: 0 <= i < |items| ==> items[i] < parent
    ensures ReplaceItems(parent, items, oldRef, newRef).Ok? ==> ReplaceItems(parent, items, oldRef, newRef).value == items
    decreases parent, 0, |items|
  {
    if items != [] {
      var n := |items| - 1;
      NoSlashItems(parent, items[..n], oldRef, newRef);
      NoSlashNoChange(items[n], oldRef, newRef);
      assert items[..n] + [items[n]] == items;
    }
  }

  // ------------------------------------------------------------------ find_entry

  /**
   * `entry["resource"]["resourceType"] == resourceType and entry["resource"]["id"] == id`:
   * the `and` stops before the id when the type differs. A string equals only
   * a string with the same text; a value held as a date has its ISO text.
   */
  function IsMatch(entry: Value, t: string, id: string): (r: Result<bool>)
    ensures r == Ok(true) <==> && Subscript(entry, "resource").Ok?
                               && Subscript(Subscript(entry, "resource").value, "resourceType").Ok?
                               && Text(Subscript(Subscript(entry, "resource").value, "resourceType").value) == Some(t)
                               && Subscript(Subscript(entry, "resource").value, "id").Ok?
                               && Text(Subscript(Subscript(entry, "resource").value, "id").value) == Some(id)
    ensures Subscript(entry, "resource").Err? ==> r == Err(Subscript(entry, "resource").fault)
  {
    match Subscript(entry, "resource")
    case Err(f) => Err(f)
    case Ok(res) =>
      match Subscript(res, "resourceType")
      case Err(f) => Err(f)
      case Ok(rt) =>
        if Text(rt) != Some(t) then Ok(false)
        else
          match Subscript(res, "id")
          case Err(f) => Err(f)
          case Ok(i) => Ok(Text(i) == Some(id))
  }

  /** `next((entry for entry in entries if …), None)`: the generator stops at the first match. */
  function FindEntry(entries: seq<Value>, t: string, id: string): (r: Result<Option<Value>>)
    ensures r.Ok? && r.value.Some? ==> r.value.value in entries && IsMatch(r.value.value, t, id) == Ok(true)
    decreases |entries|
  {
    if entries == [] then Ok(None)
    else
      match IsMatch(entries[0], t, id)
      case Err(f) => Err(f)
      case Ok(true) => Ok(Some(entries[0]))
      case Ok(false) => FindEntry(entries[1..], t, id)
  }

  /** Entry `k` is the first one the generator yields: every entry before it was checked and did not match. */
  predicate FirstMatchAt(entries: seq<Value>, t: string, id: string, k: int)
  {
    && 0 <= k < |entries|
    && IsMatch(entries[k], t, id) == Ok(true)
    && forall j :: 0 <= j < k ==> IsMatch(entries[j], t, id) == Ok(false)
  }

  /** The first entry that matches is the one found. */
  lemma {:induction false} FindsFirstMatch(entries: seq<Value>, t: string, id: string, k: int)
    requires FirstMatchAt(entries, t, id, k)
    ensures FindEntry(entries, t, id) == Ok(Some(entries[k]))
    decreases |entries|
  {
    if k > 0 {
      FirstMatchShifts(entries, t, id, k);
      FindsFirstMatch(entries[1..], t, id, k - 1);
    }
  }

  /** Past a first entry that does not match, the first match is one place earlier in the rest. */
  lemma FirstMatchShifts(entries: seq<Value>, t: string, id: string, k: int)
    requires FirstMatchAt(entries, t, id, k) && k > 0
    ensures IsMatch(entries[0], t, id) == Ok(false) && FirstMatchAt(entries[1..], t, id, k - 1)
  {
    forall j | 0 <= j < k - 1 ensures IsMatch(entries[1..][j], t, id) == Ok(false) {
      assert entries[1..][j] == entries[j + 1];
    }
  }

  /** None comes back exactly when every entry was checked and none matched. */
  lemma {:induction false} NoneWhenNothingMatches(entries: seq<Value>, t: string, id: string)
    ensures FindEntry(entries, t, id) == Ok(None) <==> forall j :: 0 <= j < |entries| ==> IsMatch(entries[j], t, id) == Ok(false)
    decreases |entries|
  {
    if entries != [] {
      NoneWhenNothingMatches(entries[1..], t, id);
      assert forall j :: 1 <= j < |entries| ==> entries[j] == entries[1..][j - 1];
    }
  }

  /** An entry that cannot be checked raises, unless a match comes before it. */
  lemma {:induction false} MalformedEntryRaises(entries: seq<Value>, t: string, id: string, k: int)
    requires 0 <= k < |entries| && IsMatch(entries[k], t, id).Err?
    requires forall j :: 0 <= j < k ==> IsMatch(entries[j], t, id) == Ok(false)
    ensures FindEntry(entries, t, id) == Err(IsMatch(entries[k], t, id).fault)
    decreases |entries|
  {
    if k > 0 {
      assert IsMatch(entries[0], t, id) == Ok(false);
      forall j | 0 <= j < k - 1 ensures IsMatch(entries[1..][j], t, id) == Ok(false) {
        assert entries[1..][j] == entries[j + 1];
      }
      MalformedEntryRaises(entries[1..], t, id, k - 1);
    }
  }

  /** A resource whose id is date-shaped text is found by that text. */
  lemma DateShapedIdFound(entry: Value)
    requires entry == Obj([("resource", Obj([("resourceType", Str("Patient")), ("id", Date(737425))]))])
    ensures FindEntry([entry], "Patient", "2020-01-01") == Ok(Some(entry))
  {
    NewYear2020();
    var res := Obj([("resourceType", Str("Patient")), ("id", Date(737425))]);
    assert Subscript(entry, "resource") == Ok(res);
    assert Subscript(res, "id") == Ok(Date(737425));
  }
}
