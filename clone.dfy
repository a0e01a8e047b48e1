/**
 * `clone_bundle`: turns a fetched search bundle into a transaction bundle.
 * Pass 1 gives every entry that carries a resource with an id a fresh id,
 * optionally de-identifies it, records the two-way address map and makes the
 * entry a POST; pass 2 walks every entry, placeholders appended on the way
 * included, with the reference rewriter.
 */
module Clone {
  import opened Json
  import opened Randomization
  import opened Deidentify
  import opened References

  /**
   * What tells the three variants apart: pydeid.py de-identifies only when
   * asked and makes placeholders; app.py and py-de-id.py always de-identify
   * and never make placeholders.
   */
  datatype Switches = Switches(deidentify: bool, placeholders: bool)

  /** Everything the clone depends on that is not in the bundle. */
  datatype Oracles = Oracles(cfg: Config, eval: Evaluator, tape: Tape, uuid: IdSupply)

  /** How many random draws and identifiers have been used. */
  datatype Cursor = Cursor(draws: nat, ids: nat)

  /** An f-string of a resource's type or id; only strings are formatted by the model. */
  function Label(v: Value): (r: Result<string>)
    ensures v.Str? ==> r == Ok(v.s)
    ensures !v.Str? ==> r == Err(NotModelled)
  {
    if v.Str? then Ok(v.s) else Err(NotModelled)
  }

  /** `"resource" in entry and "id" in entry["resource"]`, when both tests can be evaluated. */
  predicate Identified(entry: Value)
  {
    entry.Obj? && Has(entry.fields, "resource") && In(Get(entry.fields, "resource").value, "id") == Ok(true)
  }

  /** The `request` part that makes an entry create its resource. */
  function PostRequest(t: string): Value
  {
    Obj([("method", Str("POST")), ("url", Str(t))])
  }

  /** `f"{resourceType}/{id}"` */
  function Address(t: string, id: string): string
  {
    t + "/" + id
  }

  datatype Renaming =
    | Skipped
    | Renamed(entry: Value, oldAddr: string, newAddr: string, cursor: Cursor)

  /** The resource of an entry as pass 1 leaves it, before its id is replaced. */
  function Prepared(res: Value, sw: Switches, o: Oracles, c: Cursor): (r: Result<(Value, Cursor)>)
    ensures !sw.deidentify ==> r == Ok((res, c))
    ensures sw.deidentify ==> (r.Ok? <==> Deidentified(res, o.cfg, o.eval, o.tape, c.draws).Ok?)
    ensures sw.deidentify && r.Ok? ==>
              var s := Deidentified(res, o.cfg, o.eval, o.tape, c.draws).value;
              r.value == (Obj(s.fields), Cursor(s.next, c.ids))
  {
    if !sw.deidentify then Ok((res, c))
    else match Deidentified(res, o.cfg, o.eval, o.tape, c.draws)
      case Err(f) => Err(f)
      case Ok(s) => Ok((Obj(s.fields), Cursor(s.next, c.ids)))
  }

  /**
   * `"resource" not in entry or "id" not in entry["resource"]`: the resource
   * of an entry that pass 1 renames, None for an entry it skips.
   */
  function Located(entry: Value): (r: Result<Option<Value>>)
    ensures r.Ok? ==> (r.value.Some? <==> Identified(entry))
    ensures r.Ok? && r.value.Some? ==> Get(entry.fields, "resource") == Some(r.value.value)
    ensures entry.Obj? && !Has(entry.fields, "resource") ==> r == Ok(None)
  {
    match In(entry, "resource")
    case Err(f) => Err(f)
    case Ok(false) => Ok(None)
    case Ok(true) =>
      match Subscript(entry, "resource")
      case Err(f) => Err(f)
      case Ok(res) =>
        match In(res, "id")
        case Err(f) => Err(f)
        case Ok(false) => Ok(None)
        case Ok(true) => Ok(Some(res))
  }

  /** The resource's type and id as the two f-strings read them, type first. */
  function TypeAndId(res: Value): (r: Result<(string, string)>)
    ensures r.Ok? ==> res.Obj? && Get(res.fields, "resourceType") == Some(Str(r.value.0))
                      && Get(res.fields, "id") == Some(Str(r.value.1))
    ensures res.Obj? && !Has(res.fields, "resourceType") ==> r == Err(KeyError("resourceType"))
    ensures res.Obj? && Get(res.fields, "resourceType").Some? && Get(res.fields, "resourceType").value.Str?
            && !Has(res.fields, "id")
            ==> r == Err(KeyError("id"))
  {
    match Subscript(res, "resourceType")
    case Err(f) => Err(f)
    case Ok(tv) =>
      match Label(tv)
      case Err(f) => Err(f)
      case Ok(t) =>
        match Subscript(res, "id")
        case Err(f) => Err(f)
        case Ok(iv) =>
          match Label(iv)
          case Err(f) => Err(f)
          case Ok(oldId) => Ok((t, oldId))
  }

  /**
   * The entry as pass 1 leaves it: its resource carries the new id, `search`
   * and `fullUrl` are gone, `request` posts to the resource type; every other
   * field of the entry, and every other field of the resource, is kept.
   */
  function Reissued(fs: Fields, res: Fields, t: string, newId: string): (r: Fields)
    ensures Get(r, "resource") == Some(Obj(Set(res, "id", Str(newId))))
    ensures Get(Set(res, "id", Str(newId)), "id") == Some(Str(newId))
    ensures forall k :: k != "id" ==> Get(Set(res, "id", Str(newId)), k) == Get(res, k)
    ensures !Has(r, "search") && !Has(r, "fullUrl")
    ensures Get(r, "request") == Some(PostRequest(t))
    ensures forall k :: k !in {"resource", "search", "fullUrl", "request"} ==> Get(r, k) == Get(fs, k)
  {
    var e1 := Set(fs, "resource", Obj(Set(res, "id", Str(newId))));
    var e2 := Delete(Delete(e1, "search"), "fullUrl");
    Set(e2, "request", PostRequest(t))
  }

  /** The body of pass 1 for one entry. */
  function RenameEntry(entry: Value, sw: Switches, o: Oracles, c: Cursor): (r: Result<Renaming>)
    ensures r.Ok? ==> (r.value.Skipped? <==> !Identified(entry))
    ensures r.Ok? && r.value.Renamed? ==> r.value.cursor.ids == c.ids + 1
  {
    match Located(entry)
    case Err(f) => Err(f)
    case Ok(None) => Ok(Skipped)
    case Ok(Some(res)) =>
      match Prepared(res, sw, o, c)
      case Err(f) => Err(f)
      case Ok((res', c')) =>
        var newId := o.uuid(c'.ids);
        match TypeAndId(res')
        case Err(f) => Err(f)
        case Ok((t, oldId)) =>
          Ok(Renamed(Obj(Reissued(entry.fields, res'.fields, t, newId)), Address(t, oldId), Address(t, newId),
                     Cursor(c'.draws, c'.ids + 1)))
  }

  /** `referenceMap[old] = new` then `referenceMap[new] = old` for each renamed entry in turn. */
  function WriteAll(refs: RefMap, renamed: seq<(string, string)>): RefMap
  {
    if renamed == [] then refs
    else
      var last := renamed[|renamed| - 1];
      WriteAll(refs, renamed[..|renamed| - 1])[last.0 := last.1][last.1 := last.0]
  }

  lemma WriteAllSnoc(renamed: seq<(string, string)>, a: string, b: string)
    ensures WriteAll(map[], renamed + [(a, b)]) == WriteAll(map[], renamed)[a := b][b := a]
  {
    assert (renamed + [(a, b)])[..|renamed|] == renamed;
  }

  datatype Pass1 = Pass1(entries: seq<Value>, refs: RefMap, cursor: Cursor, renamed: seq<(string, string)>)

  /** Pass 1 over a list of entries. */
  function FirstPass(entries: seq<Value>, sw: Switches, o: Oracles, c: Cursor): (r: Result<Pass1>)
    ensures r.Ok? ==> |r.value.entries| == |entries| && r.value.refs == WriteAll(map[], r.value.renamed)
    ensures r.Ok? ==> r.value.cursor.ids == c.ids + |r.value.renamed|
    ensures r.Ok? ==> |r.value.renamed| <= |entries|
  {
    if entries == [] then Ok(Pass1([], map[], c, []))
    else
      var n := |entries| - 1;
      match FirstPass(entries[..n], sw, o, c)
      case Err(f) => Err(f)
      case Ok(p) =>
        match RenameEntry(entries[n], sw, o, p.cursor)
        case Err(f) => Err(f)
        case Ok(Skipped) => Ok(Pass1(p.entries + [entries[n]], p.refs, p.cursor, p.renamed))
        case Ok(Renamed(e, a, b, c')) =>
          WriteAllSnoc(p.renamed, a, b);
          Ok(Pass1(p.entries + [e], p.refs[a := b][b := a], c', p.renamed + [(a, b)]))
  }

  /** Pass 1 leaves an entry without a resource, or whose resource has no id, exactly as it was. */
  lemma {:induction false} UnidentifiedEntriesUntouched(entries: seq<Value>, sw: Switches, o: Oracles, c: Cursor, i: nat)
    requires FirstPass(entries, sw, o, c).Ok? && i < |entries| && !Identified(entries[i])
    ensures FirstPass(entries, sw, o, c).value.entries[i] == entries[i]
  {
    var n := |entries| - 1;
    FirstPassLast(entries, sw, o, c);
    if i < n {
      UnidentifiedEntriesUntouched(entries[..n], sw, o, c, i);
    } else {
      assert i == n;
      var cursor := FirstPass(entries[..n], sw, o, c).value.cursor;
      SkippedWhenUnidentified(entries[i], sw, o, cursor);
    }
  }

  /** A successful pass 1 extends the pass over all but the last entry by one entry. */
  lemma FirstPassLast(entries: seq<Value>, sw: Switches, o: Oracles, c: Cursor)
    requires entries != [] && FirstPass(entries, sw, o, c).Ok?
    ensures var n := |entries| - 1;
            var p := FirstPass(entries[..n], sw, o, c);
            && p.Ok? && RenameEntry(entries[n], sw, o, p.value.cursor).Ok?
            && FirstPass(entries, sw, o, c).value.entries[..n] == p.value.entries
            && (RenameEntry(entries[n], sw, o, p.value.cursor) == Ok(Skipped) ==> FirstPass(entries, sw, o, c).value.entries[n] == entries[n])
  {
  }

  /** An entry pass 1 cannot rename is skipped, unless one of the tests raises. */
  lemma SkippedWhenUnidentified(entry: Value, sw: Switches, o: Oracles, c: Cursor)
    requires !Identified(entry)
    ensures RenameEntry(entry, sw, o, c) == Ok(Skipped) || RenameEntry(entry, sw, o, c).Err?
  {
    assert Located(entry) == Ok(None) || Located(entry).Err?;
  }

  datatype Pass2 = Pass2(entries: seq<Value>, walk: Walk)

  /** Pass 2 over the entries pass 1 left, placeholders not yet appended. */
  function SecondPass(entries: seq<Value>, w: Walk, ctx: Context): (r: Result<Pass2>)
    ensures r.Ok? ==> |r.value.entries| == |entries| && Grows(w, r.value.walk, ctx)
  {
    if entries == [] then Ok(Pass2([], w))
    else
      var n := |entries| - 1;
      match SecondPass(entries[..n], w, ctx)
      case Err(f) => Err(f)
      case Ok(p) =>
        match RewriteNode(entries[n], p.walk, ctx)
        case Err(f) => Err(f)
        case Ok(s) =>
          GrowsTransitive(w, p.walk, s.walk, ctx);
          Ok(Pass2(p.entries + [s.node], s.walk))
  }

  /**
   * The entry list after pass 2: the rewritten entries, then every placeholder
   * in the order it was made (each one appended right after the entry that
   * made it, behind those already appended).
   */
  function Rewritten(entries: seq<Value>, refs: RefMap, ids: nat, ctx: Context): (r: Result<Pass2>)
    ensures r.Ok? ==> |r.value.entries| == |entries| + |r.value.walk.made|
    ensures r.Ok? ==> r.value.walk.ids == ids + |r.value.walk.made|
    ensures r.Ok? ==> forall j :: 0 <= j < |r.value.walk.made| ==>
                        r.value.entries[|entries| + j] == r.value.walk.made[j]
                        && IsPlaceholder(r.value.walk.made[j], ctx.uuid(ids + j))
    ensures r.Ok? && !ctx.placeholders ==> r.value.walk.made == [] && r.value.walk.refs == refs
  {
    match SecondPass(entries, Walk(refs, ids, []), ctx)
    case Err(f) => Err(f)
    case Ok(p) =>
      PlaceholdersAtEnd(p.entries, |entries|, refs, ids, p.walk, ctx);
      Ok(Pass2(p.entries + p.walk.made, p.walk))
  }

  /** The placeholders a walk from an empty list made, appended behind `es`, each with its identifier. */
  lemma PlaceholdersAtEnd(es: seq<Value>, n: nat, refs: RefMap, ids: nat, w: Walk, ctx: Context)
    requires Grows(Walk(refs, ids, []), w, ctx) && |es| == n
    ensures |es + w.made| == n + |w.made| && w.ids == ids + |w.made|
    ensures forall j :: 0 <= j < |w.made| ==>
              (es + w.made)[n + j] == w.made[j] && IsPlaceholder(w.made[j], ctx.uuid(ids + j))
    ensures !ctx.placeholders ==> w.made == [] && w.refs == refs
  {
    forall j | 0 <= j < |w.made|
      ensures (es + w.made)[n + j] == w.made[j] && IsPlaceholder(w.made[j], ctx.uuid(ids + j))
    {
      MadeByWalk(Walk(refs, ids, []), w, ctx, j);
    }
  }

  /** Pass 2 over the original entries adds one map entry per placeholder it makes. */
  lemma {:induction false} SecondPassOneKeyEach(entries: seq<Value>, w: Walk, ctx: Context)
    requires SecondPass(entries, w, ctx).Ok?
    ensures OneKeyEach(w, SecondPass(entries, w, ctx).value.walk)
  {
    if entries != [] {
      var n := |entries| - 1;
      SecondPassOneKeyEach(entries[..n], w, ctx);
      var p := SecondPass(entries[..n], w, ctx).value;
      NodeOneKeyEach(entries[n], p.walk, ctx);
      var s := RewriteNode(entries[n], p.walk, ctx).value;
      assert SecondPass(entries, w, ctx).value.walk == s.walk;
    }
  }

  /**
   * However many entries mention the same missing reference, pass 2 makes at
   * most one placeholder for it: every reference keeps its mapping, and the
   * map gains exactly one new reference per placeholder, so a reference
   * mapped by an earlier placeholder is rewritten, not given a second one.
   */
  lemma OnePlaceholderPerReference(entries: seq<Value>, refs: RefMap, ids: nat, ctx: Context)
    requires Rewritten(entries, refs, ids, ctx).Ok?
    ensures var w := Rewritten(entries, refs, ids, ctx).value.walk;
            && (forall a :: a in refs ==> a in w.refs && w.refs[a] == refs[a])
            && |w.refs| == |refs| + |w.made|
            && forall a :: a in w.refs && a !in refs ==> IsStubReference(a)
  {
    SecondPassOneKeyEach(entries, Walk(refs, ids, []), ctx);
  }

  /** The whole clone: the bundle with its new type, without `link`, with its entries cloned. */
  function Cloned(bundle: Value, sw: Switches, o: Oracles): (r: Result<Value>)
    ensures r.Ok? ==> bundle.Obj? && r.value.Obj?
    ensures r.Ok? ==> Get(r.value.fields, "type") == Some(Str("transaction")) && !Has(r.value.fields, "link")
    ensures bundle.Obj? && !Has(bundle.fields, "link") ==> r == Err(KeyError("link"))
    ensures bundle.Obj? && Has(bundle.fields, "link") && !Has(bundle.fields, "entry") ==> r == Err(KeyError("entry"))
  {
    if !bundle.Obj? then Err(TypeError)
    else
      var fs := Set(bundle.fields, "type", Str("transaction"));
      if !Has(fs, "link") then Err(KeyError("link"))
      else
        var fs' := Delete(fs, "link");
        match Subscript(Obj(fs'), "entry")
        case Err(f) => Err(f)
        case Ok(ev) =>
          match Iterate(ev)
          case Err(f) => Err(f)
          case Ok(items) =>
            match FirstPass(items, sw, o, Cursor(0, 0))
            case Err(f) => Err(f)
            case Ok(p) =>
              var ctx := Context(sw.placeholders, o.uuid);
              match Rewritten(p.entries, p.refs, p.cursor.ids, ctx)
              case Err(f) => Err(f)
              case Ok(q) =>
                var ev' := if ev.Arr? then Arr(q.entries) else ev;
                Ok(Obj(Set(fs', "entry", ev')))
  }

  // ------------------------------------------------------------------ the loops

  /** An exception in pass 1 ends the whole clone. */
  lemma {:induction false} FirstPassErrorSticks(entries: seq<Value>, sw: Switches, o: Oracles, c: Cursor, n: nat)
    requires n <= |entries| && FirstPass(entries[..n], sw, o, c).Err?
    ensures FirstPass(entries, sw, o, c) == FirstPass(entries[..n], sw, o, c)
    decreases |entries| - n
  {
    if n < |entries| {
      assert entries[..n + 1][..n] == entries[..n];
      FirstPassErrorSticks(entries, sw, o, c, n + 1);
    } else {
      assert entries[..n] == entries;
    }
  }

  /** An exception in pass 2 ends the whole clone. */
  lemma {:induction false} SecondPassErrorSticks(entries: seq<Value>, w: Walk, ctx: Context, n: nat)
    requires n <= |entries| && SecondPass(entries[..n], w, ctx).Err?
    ensures SecondPass(entries, w, ctx) == SecondPass(entries[..n], w, ctx)
    decreases |entries| - n
  {
    if n < |entries| {
      assert entries[..n + 1][..n] == entries[..n];
      SecondPassErrorSticks(entries, w, ctx, n + 1);
    } else {
      assert entries[..n] == entries;
    }
  }

  /** Replacing element `i` changes the prefix through `i` and nothing after it. */
  lemma UpdateAt<T>(s: seq<T>, i: nat, x: T)
    requires i < |s|
    ensures s[i := x][..i + 1] == s[..i] + [x] && s[i := x][i + 1..] == s[i + 1..]
  {
  }

  /** Writing back the element already there, and appending nothing, leaves the list as it was. */
  lemma UpdateSame<T>(s: seq<T>, i: nat, extra: seq<T>)
    requires i < |s| && |extra| == 0
    ensures s[i := s[i]] + extra == s
  {
  }

  /** Equal tails from `i` on share element `i` and the tail after it. */
  lemma SameTail<T>(a: seq<T>, b: seq<T>, i: nat)
    requires i < |a| == |b| && a[i..] == b[i..]
    ensures a[i] == b[i] && a[i + 1..] == b[i + 1..]
  {
    assert a[i] == a[i..][0] && b[i] == b[i..][0];
    assert a[i + 1..] == a[i..][1..] && b[i + 1..] == b[i..][1..];
  }

  /** The prefix through `i` is the prefix before `i` and element `i`. */
  lemma Snoc<T>(s: seq<T>, i: nat)
    requires i < |s|
    ensures s[..i + 1] == s[..i] + [s[i]] && s[..i + 1][..i] == s[..i] && s[..i + 1][i] == s[i]
  {
  }

  /** The definition of pass 1, one entry further, case by case. */
  lemma FirstPassPrefix(entries: seq<Value>, sw: Switches, o: Oracles, c: Cursor, i: nat, p: Pass1)
    requires i < |entries| && FirstPass(entries[..i], sw, o, c) == Ok(p)
    ensures var st := RenameEntry(entries[i], sw, o, p.cursor);
            && (st.Err? ==> FirstPass(entries[..i + 1], sw, o, c) == Err(st.fault))
            && (st == Ok(Skipped) ==>
                  FirstPass(entries[..i + 1], sw, o, c) == Ok(Pass1(p.entries + [entries[i]], p.refs, p.cursor, p.renamed)))
            && (st.Ok? && st.value.Renamed? ==>
                  FirstPass(entries[..i + 1], sw, o, c) ==
                    Ok(Pass1(p.entries + [st.value.entry],
                             p.refs[st.value.oldAddr := st.value.newAddr][st.value.newAddr := st.value.oldAddr],
                             st.value.cursor, p.renamed + [(st.value.oldAddr, st.value.newAddr)])))
  {
    Snoc(entries, i);
  }

  /** The state of the pass 1 loop after `i` entries. */
  ghost predicate Pass1Loop(entries: seq<Value>, sw: Switches, o: Oracles, c: Cursor, i: nat,
                            es: seq<Value>, refs: RefMap, cursor: Cursor, renamed: seq<(string, string)>)
  {
    && i <= |entries| && |es| == |entries| && es[i..] == entries[i..]
    && FirstPass(entries[..i], sw, o, c) == Ok(Pass1(es[..i], refs, cursor, renamed))
  }

  /** What the visit of entry `i` keeps, or ends the loop with. */
  lemma Pass1LoopStep(entries: seq<Value>, sw: Switches, o: Oracles, c: Cursor, i: nat,
                      es: seq<Value>, refs: RefMap, cursor: Cursor, renamed: seq<(string, string)>)
    requires Pass1Loop(entries, sw, o, c, i, es, refs, cursor, renamed) && i < |entries|
    ensures es[i] == entries[i]
    ensures var st := RenameEntry(es[i], sw, o, cursor);
            && (st.Err? ==> FirstPass(entries, sw, o, c) == Err(st.fault))
            && (st == Ok(Skipped) ==> Pass1Loop(entries, sw, o, c, i + 1, es, refs, cursor, renamed))
            && (st.Ok? && st.value.Renamed? ==>
                  Pass1Loop(entries, sw, o, c, i + 1, es[i := st.value.entry],
                            refs[st.value.oldAddr := st.value.newAddr][st.value.newAddr := st.value.oldAddr],
                            st.value.cursor, renamed + [(st.value.oldAddr, st.value.newAddr)]))
  {
    SameTail(es, entries, i);
    FirstPassPrefix(entries, sw, o, c, i, Pass1(es[..i], refs, cursor, renamed));
    var st := RenameEntry(es[i], sw, o, cursor);
    if st.Err? {
      FirstPassErrorSticks(entries, sw, o, c, i + 1);
    } else if st.value.Renamed? {
      UpdateAt(es, i, st.value.entry);
    } else {
      Snoc(es, i);
    }
  }

  /** Pass 1: the entry list is updated in place, one entry at a time. */
  method AssignIds(entries: seq<Value>, sw: Switches, o: Oracles, c: Cursor) returns (r: Result<Pass1>)
    ensures r == FirstPass(entries, sw, o, c)
  {
    var es := entries;
    var refs: RefMap := map[];
    var cursor := c;
    var renamed: seq<(string, string)> := [];
    assert entries[..0] == [] && es[..0] == [];
    for i := 0 to |entries|
      invariant Pass1Loop(entries, sw, o, c, i, es, refs, cursor, renamed)
    {
      Pass1LoopStep(entries, sw, o, c, i, es, refs, cursor, renamed);
      var step := RenameEntry(es[i], sw, o, cursor);
      if step.Err? {
        return Err(step.fault);
      }
      if step.value.Renamed? {
        var a, b := step.value.oldAddr, step.value.newAddr;
        es := es[i := step.value.entry];
        refs := refs[a := b][b := a];
        cursor := step.value.cursor;
        renamed := renamed + [(a, b)];
      }
    }
    assert entries[..|entries|] == entries && es[..|entries|] == es;
    return Ok(Pass1(es, refs, cursor, renamed));
  }

  /**
   * The list after entry `i` of the first `n` is replaced by `x` and `extra`
   * is appended: the original part still ends with the untouched entries, the
   * appended part grows by `extra`.
   */
  lemma Splice<T>(es: seq<T>, entries: seq<T>, n: nat, i: nat, x: T, tail: seq<T>, extra: seq<T>)
    requires i < n == |entries| && |es| == n + |tail| && es[n..] == tail && es[i..n] == entries[i..]
    ensures es[i] == entries[i]
    ensures var es' := es[i := x] + extra;
            && |es'| == n + |tail + extra| && es'[n..] == tail + extra
            && es'[i + 1..n] == entries[i + 1..] && es'[..i + 1] == es[..i] + [x]
  {
    SameTail(es[..n], entries, i);
    UpdateAt(es[..n], i, x);
    var es' := es[i := x] + extra;
    assert es'[..n] == es[..n][i := x];
    assert es'[n..] == es[n..] + extra;
    assert es[..n][..i] == es[..i];
  }

  /** The definition of pass 2, one entry further. */
  lemma SecondPassSnoc(entries: seq<Value>, w0: Walk, ctx: Context, i: nat, p: Pass2, s: Step)
    requires i < |entries| && SecondPass(entries[..i], w0, ctx) == Ok(p)
    requires RewriteNode(entries[i], p.walk, ctx) == Ok(s)
    ensures SecondPass(entries[..i + 1], w0, ctx) == Ok(Pass2(p.entries + [s.node], s.walk))
  {
    Snoc(entries, i);
  }

  /** An exception while walking an original entry ends pass 2. */
  lemma SecondPassFails(entries: seq<Value>, w0: Walk, ctx: Context, i: nat, es: seq<Value>, w: Walk)
    requires i < |entries| && |es| == |entries| + |w.made| && es[i..|entries|] == entries[i..]
    requires SecondPass(entries[..i], w0, ctx) == Ok(Pass2(es[..i], w))
    requires RewriteNode(es[i], w, ctx).Err?
    ensures SecondPass(entries, w0, ctx) == Err(RewriteNode(es[i], w, ctx).fault)
  {
    Snoc(entries, i);
    SameTail(es[..|entries|], entries, i);
    SecondPassErrorSticks(entries, w0, ctx, i + 1);
  }

  /** Once the original entries are done, what is left of the list are placeholders, which the walk leaves alone. */
  lemma PlaceholderStep(n: nat, refs: RefMap, ids: nat, ctx: Context, i: nat, es: seq<Value>, w: Walk)
    requires n <= i < |es| && es[n..] == w.made
    requires Grows(Walk(refs, ids, []), w, ctx)
    ensures RewriteNode(es[i], w, ctx) == Ok(Step(es[i], w))
    ensures es[i := es[i]] + w.made[|w.made|..] == es
  {
    UpdateSame(es, i, w.made[|w.made|..]);
    var j := i - n;
    InTail(es, n, i);
    MadeByWalk(Walk(refs, ids, []), w, ctx, j);
    PlaceholderIsLeftAlone(es[i], ctx.uuid(ids + j), w, ctx);
  }

  /** Everything a walk from an empty start has made is a placeholder, numbered from the walk's first identifier. */
  lemma MadeByWalk(w0: Walk, w: Walk, ctx: Context, j: nat)
    requires Grows(w0, w, ctx) && w0.made == [] && j < |w.made|
    ensures IsPlaceholder(w.made[j], ctx.uuid(w0.ids + j))
  {
  }

  /** Element `i` of a list is element `i - n` of its tail from `n`. */
  lemma InTail<T>(s: seq<T>, n: nat, i: nat)
    requires n <= i < |s|
    ensures s[i] == s[n..][i - n]
  {
  }

  /**
   * Where pass 2 stands after visiting `i` entries of the list `es`: the
   * original entries visited so far match `SecondPass`, those still ahead are
   * untouched, and the list ends with the placeholders made so far.
   */
  ghost predicate Pass2Loop(entries: seq<Value>, w0: Walk, ctx: Context, i: nat, es: seq<Value>, w: Walk)
  {
    var n := |entries|;
    && i <= |es| && |es| == n + |w.made| && es[n..] == w.made && Grows(w0, w, ctx)
    && (i <= n ==> es[i..n] == entries[i..] && SecondPass(entries[..i], w0, ctx) == Ok(Pass2(es[..i], w)))
    && (i >= n ==> SecondPass(entries, w0, ctx) == Ok(Pass2(es[..n], w)))
  }

  /** Visiting entry `i` keeps `Pass2Loop`; once past the original entries, a visit changes nothing. */
  lemma Pass2LoopStep(entries: seq<Value>, refs: RefMap, ids: nat, ctx: Context, i: nat, es: seq<Value>, w: Walk, s: Step)
    requires Pass2Loop(entries, Walk(refs, ids, []), ctx, i, es, w) && i < |es|
    requires RewriteNode(es[i], w, ctx) == Ok(s)
    ensures |w.made| <= |s.walk.made|
    ensures Pass2Loop(entries, Walk(refs, ids, []), ctx, i + 1, es[i := s.node] + s.walk.made[|w.made|..], s.walk)
    ensures |entries| <= i ==> s == Step(es[i], w)
  {
    var n := |entries|;
    if i < n {
      GrowsTransitive(Walk(refs, ids, []), w, s.walk, ctx);
      Pass2StepShape(entries, i, es, w, s);
      Pass2StepPass(entries, Walk(refs, ids, []), ctx, i, es, w, s);
    } else {
      PlaceholderStep(n, refs, ids, ctx, i, es, w);
    }
  }

  /** The list after visiting original entry `i`: that entry replaced, the new placeholders appended. */
  lemma Pass2StepShape(entries: seq<Value>, i: nat, es: seq<Value>, w: Walk, s: Step)
    requires i < |entries| && |es| == |entries| + |w.made| && es[|entries|..] == w.made && es[i..|entries|] == entries[i..]
    requires |w.made| <= |s.walk.made| && s.walk.made[..|w.made|] == w.made
    ensures es[i] == entries[i]
    ensures var es' := es[i := s.node] + s.walk.made[|w.made|..];
            && i + 1 <= |es'| && |es'| == |entries| + |s.walk.made| && es'[|entries|..] == s.walk.made
            && es'[i + 1..|entries|] == entries[i + 1..] && es'[..i + 1] == es[..i] + [s.node]
  {
    var appended := s.walk.made[|w.made|..];
    assert s.walk.made == w.made + appended;
    Splice(es, entries, |entries|, i, s.node, w.made, appended);
  }

  /** Pass 2 over one more original entry, and over all of them after the last. */
  lemma Pass2StepPass(entries: seq<Value>, w0: Walk, ctx: Context, i: nat, es: seq<Value>, w: Walk, s: Step)
    requires i < |entries| && i < |es| && es[i] == entries[i]
    requires SecondPass(entries[..i], w0, ctx) == Ok(Pass2(es[..i], w))
    requires RewriteNode(es[i], w, ctx) == Ok(s)
    ensures SecondPass(entries[..i + 1], w0, ctx) == Ok(Pass2(es[..i] + [s.node], s.walk))
    ensures i + 1 == |entries| ==> SecondPass(entries, w0, ctx) == Ok(Pass2(es[..i] + [s.node], s.walk))
  {
    SecondPassSnoc(entries, w0, ctx, i, Pass2(es[..i], w), s);
    if i + 1 == |entries| {
      assert entries[..i + 1] == entries;
    }
  }

  /** An exception while visiting an original entry is the outcome of the whole pass. */
  lemma Pass2LoopFails(entries: seq<Value>, refs: RefMap, ids: nat, ctx: Context, i: nat, es: seq<Value>, w: Walk)
    requires Pass2Loop(entries, Walk(refs, ids, []), ctx, i, es, w) && i < |es|
    requires RewriteNode(es[i], w, ctx).Err?
    ensures Rewritten(entries, refs, ids, ctx) == Err(RewriteNode(es[i], w, ctx).fault)
  {
    if i < |entries| {
      SecondPassFails(entries, Walk(refs, ids, []), ctx, i, es, w);
    } else {
      PlaceholderStep(|entries|, refs, ids, ctx, i, es, w);
    }
  }

  /** When the loop has visited the whole list, the list is the outcome of the pass. */
  lemma Pass2LoopDone(entries: seq<Value>, refs: RefMap, ids: nat, ctx: Context, es: seq<Value>, w: Walk)
    requires Pass2Loop(entries, Walk(refs, ids, []), ctx, |es|, es, w)
    ensures Rewritten(entries, refs, ids, ctx) == Ok(Pass2(es, w))
  {
    var n := |entries|;
    assert SecondPass(entries, Walk(refs, ids, []), ctx) == Ok(Pass2(es[..n], w));
    assert es == es[..n] + es[n..];
  }

  /**
   * Pass 2: the loop runs over the entry list while the list grows, so every
   * placeholder appended is visited too, after the original entries; a
   * placeholder has no reference and no record inside, so visiting it changes
   * nothing.
   */
  method RewriteEntries(entries: seq<Value>, refs: RefMap, ids: nat, ctx: Context) returns (r: Result<Pass2>)
    ensures r == Rewritten(entries, refs, ids, ctx)
  {
    var n := |entries|;
    var es := entries;
    var w := Walk(refs, ids, []);
    var i := 0;
    assert entries[..0] == [];
    while i < |es|
      invariant Pass2Loop(entries, Walk(refs, ids, []), ctx, i, es, w)
      decreases if i <= n then n - i else 0, |es| - i
    {
      var s := ReplaceReferences(es[i], w, ctx);
      if s.Err? {
        Pass2LoopFails(entries, refs, ids, ctx, i, es, w);
        return Err(s.fault);
      }
      Pass2LoopStep(entries, refs, ids, ctx, i, es, w, s.value);
      es := es[i := s.value.node] + s.value.walk.made[|w.made|..];
      w := s.value.walk;
      i := i + 1;
    }
    Pass2LoopDone(entries, refs, ids, ctx, es, w);
    return Ok(Pass2(es, w));
  }

  /** `clone_bundle` after the file is read: the same steps as `Cloned`, with the two passes as loops. */
  method CloneBundle(bundle: Value, sw: Switches, o: Oracles) returns (r: Result<Value>)
    ensures r == Cloned(bundle, sw, o)
  {
    if !bundle.Obj? {
      return Err(TypeError);
    }
    var fs := Set(bundle.fields, "type", Str("transaction"));
    if !Has(fs, "link") {
      return Err(KeyError("link"));
    }
    fs := Delete(fs, "link");
    var ev := Subscript(Obj(fs), "entry");
    if ev.Err? {
      return Err(ev.fault);
    }
    var items := Iterate(ev.value);
    if items.Err? {
      return Err(items.fault);
    }
    var p := AssignIds(items.value, sw, o, Cursor(0, 0));
    if p.Err? {
      return Err(p.fault);
    }
    var q := RewriteEntries(p.value.entries, p.value.refs, p.value.cursor.ids, Context(sw.placeholders, o.uuid));
    if q.Err? {
      return Err(q.fault);
    }
    var entry := if ev.value.Arr? then Arr(q.value.entries) else ev.value;
    return Ok(Obj(Set(fs, "entry", entry)));
  }

  // ------------------------------------------------------------------ properties

  /**
   * The addresses pass 1 records are fresh: no new address equals an old one,
   * and no two renamed entries share an old or a new address.
   */
  predicate DistinctAddresses(renamed: seq<(string, string)>)
  {
    forall i, j :: 0 <= i < |renamed| && 0 <= j < |renamed| ==>
      renamed[i].1 != renamed[j].0 && (i != j ==> renamed[i].0 != renamed[j].0 && renamed[i].1 != renamed[j].1)
  }

  /** Freshness of the addresses carries over to the pairs recorded before the last one. */
  lemma DistinctPrefix(renamed: seq<(string, string)>, n: nat)
    requires DistinctAddresses(renamed) && n <= |renamed|
    ensures DistinctAddresses(renamed[..n])
  {
    var prefix := renamed[..n];
    forall i, j | 0 <= i < n && 0 <= j < n
      ensures prefix[i].1 != prefix[j].0 && (i != j ==> prefix[i].0 != prefix[j].0 && prefix[i].1 != prefix[j].1)
    {
      assert prefix[i] == renamed[i] && prefix[j] == renamed[j];
    }
  }

  /** The address map of pass 1 is two-way: each old address leads to its new one, and the new one leads back. */
  lemma {:induction false} TwoWayMap(renamed: seq<(string, string)>)
    requires DistinctAddresses(renamed)
    ensures var m := WriteAll(map[], renamed);
            forall i :: 0 <= i < |renamed| ==>
              renamed[i].0 in m && m[renamed[i].0] == renamed[i].1 && renamed[i].1 in m && m[renamed[i].1] == renamed[i].0
  {
    if renamed != [] {
      var n := |renamed| - 1;
      var prefix := renamed[..n];
      DistinctPrefix(renamed, n);
      TwoWayMap(prefix);
      var m := WriteAll(map[], prefix);
      var (a, b) := renamed[n];
      assert WriteAll(map[], renamed) == m[a := b][b := a];
      assert a != b by { assert renamed[n].1 != renamed[n].0; }
      forall i | 0 <= i < n
        ensures renamed[i].0 != a && renamed[i].0 != b && renamed[i].1 != a && renamed[i].1 != b
        ensures renamed[i].0 in m && m[renamed[i].0] == renamed[i].1 && renamed[i].1 in m && m[renamed[i].1] == renamed[i].0
      {
        assert prefix[i] == renamed[i];
      }
    }
  }

  /** `x` is the old or the new address of some renamed entry. */
  predicate Recorded(renamed: seq<(string, string)>, x: string)
  {
    exists i :: 0 <= i < |renamed| && (x == renamed[i].0 || x == renamed[i].1)
  }

  /** The address map of pass 1 holds the old and new addresses of the renamed entries and nothing else. */
  lemma {:induction false} TwoWayMapKeys(renamed: seq<(string, string)>)
    ensures forall x :: x in WriteAll(map[], renamed) <==> Recorded(renamed, x)
  {
    if renamed != [] {
      var n := |renamed| - 1;
      var prefix := renamed[..n];
      TwoWayMapKeys(prefix);
      var m := WriteAll(map[], prefix);
      var (a, b) := renamed[n];
      assert WriteAll(map[], renamed) == m[a := b][b := a];
      forall x
        ensures x in m[a := b][b := a] <==> Recorded(renamed, x)
      {
        if x in m {
          assert Recorded(prefix, x);
          var i :| 0 <= i < n && (x == prefix[i].0 || x == prefix[i].1);
          assert prefix[i] == renamed[i];
        }
        if x == a || x == b {
          assert renamed[n] == (a, b);
        }
        if Recorded(renamed, x) {
          var i :| 0 <= i < |renamed| && (x == renamed[i].0 || x == renamed[i].1);
          if i < n {
            assert prefix[i] == renamed[i];
            assert Recorded(prefix, x);
          }
        }
      }
    }
  }

  /**
   * An entry pass 1 renames: its resource carries the new identifier and its
   * old type, the new address is built from both, `search` and `fullUrl` are
   * gone, the request posts to the resource type, and every other field of
   * the entry is kept.
   */
  lemma RenamedEntryShape(entry: Value, sw: Switches, o: Oracles, c: Cursor)
    requires RenameEntry(entry, sw, o, c).Ok? && RenameEntry(entry, sw, o, c).value.Renamed?
    ensures var r := RenameEntry(entry, sw, o, c).value;
            var newId := o.uuid(c.ids);
            && entry.Obj? && r.entry.Obj?
            && Get(r.entry.fields, "resource").Some? && Get(r.entry.fields, "resource").value.Obj?
            && var res := Get(r.entry.fields, "resource").value.fields;
               && Get(res, "id") == Some(Str(newId))
               && Get(res, "resourceType").Some? && Get(res, "resourceType").value.Str?
               && var t := Get(res, "resourceType").value.s;
                  && r.newAddr == Address(t, newId)
                  && Get(r.entry.fields, "request") == Some(PostRequest(t))
                  && !Has(r.entry.fields, "search") && !Has(r.entry.fields, "fullUrl")
                  && forall k :: k !in {"resource", "search", "fullUrl", "request"} ==> Get(r.entry.fields, k) == Get(entry.fields, k)
  {
    var res := Located(entry).value.value;
    var prepared := Prepared(res, sw, o, c).value;
    var (t, oldId) := TypeAndId(prepared.0).value;
    assert prepared.1.ids == c.ids;
    var fs := Set(prepared.0.fields, "id", Str(o.uuid(c.ids)));
    assert Get(fs, "resourceType") == Get(prepared.0.fields, "resourceType");
  }

  /**
   * The resource of a renamed entry: without de-identification it is the
   * original resource with only its id replaced, and the old address is its
   * original type and id; with de-identification it is the de-identified
   * resource with its id replaced, and it carries no `meta`.
   */
  lemma RenamedResource(entry: Value, sw: Switches, o: Oracles, c: Cursor)
    requires RenameEntry(entry, sw, o, c).Ok? && RenameEntry(entry, sw, o, c).value.Renamed?
    ensures entry.Obj? && Get(entry.fields, "resource").Some?
    ensures var r := RenameEntry(entry, sw, o, c).value;
            var res := Get(entry.fields, "resource").value;
            var newId := Str(o.uuid(c.ids));
            !sw.deidentify ==>
              && res.Obj? && Get(r.entry.fields, "resource") == Some(Obj(Set(res.fields, "id", newId)))
              && Get(res.fields, "resourceType").Some? && Get(res.fields, "resourceType").value.Str?
              && Get(res.fields, "id").Some? && Get(res.fields, "id").value.Str?
              && r.oldAddr == Address(Get(res.fields, "resourceType").value.s, Get(res.fields, "id").value.s)
    ensures var r := RenameEntry(entry, sw, o, c).value;
            var res := Get(entry.fields, "resource").value;
            var scrubbed := Deidentified(res, o.cfg, o.eval, o.tape, c.draws);
            sw.deidentify ==>
              && scrubbed.Ok?
              && Get(r.entry.fields, "resource") == Some(Obj(Set(scrubbed.value.fields, "id", Str(o.uuid(c.ids)))))
              && !Has(Set(scrubbed.value.fields, "id", Str(o.uuid(c.ids))), "meta")
  {
    var res := Located(entry).value.value;
    if sw.deidentify {
      MetaAlwaysRemoved(res, o.cfg, o.eval, o.tape, c.draws);
      var scrubbed := Deidentified(res, o.cfg, o.eval, o.tape, c.draws).value.fields;
      assert Get(Set(scrubbed, "id", Str(o.uuid(c.ids))), "meta") == Get(scrubbed, "meta");
    }
  }

  /** How many of the entries pass 1 can rename. */
  function IdentifiedCount(entries: seq<Value>): (r: nat)
    ensures r <= |entries|
  {
    if entries == [] then 0
    else IdentifiedCount(entries[..|entries| - 1]) + if Identified(entries[|entries| - 1]) then 1 else 0
  }

  /** The last step of pass 1, as far as the recorded pairs are concerned. */
  lemma FirstPassLastRenamed(entries: seq<Value>, sw: Switches, o: Oracles, c: Cursor)
    requires entries != [] && FirstPass(entries, sw, o, c).Ok?
    ensures var n := |entries| - 1;
            var p := FirstPass(entries[..n], sw, o, c);
            var st := RenameEntry(entries[n], sw, o, p.value.cursor);
            var q := FirstPass(entries, sw, o, c).value;
            && p.Ok? && st.Ok?
            && q.entries[..n] == p.value.entries
            && (st.value.Skipped? ==> q.renamed == p.value.renamed)
            && (st.value.Renamed? ==>
                  q.renamed == p.value.renamed + [(st.value.oldAddr, st.value.newAddr)] && q.entries[n] == st.value.entry)
  {
    FirstPassLast(entries, sw, o, c);
  }

  /** Pass 1 records one pair for every entry it can rename, and no other. */
  lemma {:induction false} FirstPassCount(entries: seq<Value>, sw: Switches, o: Oracles, c: Cursor)
    requires FirstPass(entries, sw, o, c).Ok?
    ensures |FirstPass(entries, sw, o, c).value.renamed| == IdentifiedCount(entries)
  {
    if entries != [] {
      var n := |entries| - 1;
      FirstPassLastRenamed(entries, sw, o, c);
      FirstPassCount(entries[..n], sw, o, c);
    }
  }

  /**
   * An entry as pass 1 leaves it after renaming it to `newId`: its resource
   * carries `newId` and a type, the pair's new address is that type and
   * `newId`, and the request posts to the type.
   */
  ghost predicate RenamedAs(e: Value, pair: (string, string), newId: string)
  {
    && e.Obj? && Get(e.fields, "resource").Some? && Get(e.fields, "resource").value.Obj?
    && var res := Get(e.fields, "resource").value.fields;
       && Get(res, "id") == Some(Str(newId))
       && Get(res, "resourceType").Some? && Get(res, "resourceType").value.Str?
       && pair.1 == Address(Get(res, "resourceType").value.s, newId)
       && Get(e.fields, "request") == Some(PostRequest(Get(res, "resourceType").value.s))
  }

  /** `addr` is the address an entry's resource had: its type and id. */
  ghost predicate OldAddressOf(entry: Value, addr: string)
  {
    && entry.Obj? && Get(entry.fields, "resource").Some?
    && var res := Get(entry.fields, "resource").value;
       && res.Obj?
       && Get(res.fields, "resourceType").Some? && Get(res.fields, "resourceType").value.Str?
       && Get(res.fields, "id").Some? && Get(res.fields, "id").value.Str?
       && addr == Address(Get(res.fields, "resourceType").value.s, Get(res.fields, "id").value.s)
  }

  /** One renamed entry, in the terms of `RenamedAs` and `OldAddressOf`. */
  lemma RenameEntryRenamedAs(entry: Value, sw: Switches, o: Oracles, c: Cursor)
    requires RenameEntry(entry, sw, o, c).Ok? && RenameEntry(entry, sw, o, c).value.Renamed?
    ensures var r := RenameEntry(entry, sw, o, c).value;
            RenamedAs(r.entry, (r.oldAddr, r.newAddr), o.uuid(c.ids))
    ensures !sw.deidentify ==> OldAddressOf(entry, RenameEntry(entry, sw, o, c).value.oldAddr)
  {
    RenamedEntryShape(entry, sw, o, c);
    RenamedResource(entry, sw, o, c);
  }

  /** Pass 1 left entry `i` as `st` made it and recorded `st`'s pair as its k-th. */
  ghost predicate RenamedAt(p: Pass1, i: nat, k: nat, st: Renaming)
  {
    && st.Renamed? && i < |p.entries| && k < |p.renamed|
    && p.entries[i] == st.entry && p.renamed[k] == (st.oldAddr, st.newAddr)
  }

  /** A pass that extends `p` keeps what `p` renamed where `p` put it. */
  lemma RenamedAtKept(p: Pass1, q: Pass1, i: nat, k: nat, st: Renaming)
    requires RenamedAt(p, i, k, st) && Extends(p, q)
    ensures RenamedAt(q, i, k, st)
  {
    assert q.entries[i] == q.entries[..|p.entries|][i];
    assert q.renamed[k] == q.renamed[..|p.renamed|][k];
  }

  /** `q` is `p` with more entries and more pairs after them. */
  ghost predicate Extends(p: Pass1, q: Pass1)
  {
    && |p.entries| <= |q.entries| && q.entries[..|p.entries|] == p.entries
    && |p.renamed| <= |q.renamed| && q.renamed[..|p.renamed|] == p.renamed
  }

  lemma ExtendsTransitive(p: Pass1, m: Pass1, q: Pass1)
    requires Extends(p, m) && Extends(m, q)
    ensures Extends(p, q)
  {
    assert q.entries[..|p.entries|] == q.entries[..|m.entries|][..|p.entries|];
    assert q.renamed[..|p.renamed|] == q.renamed[..|m.renamed|][..|p.renamed|];
  }

  /** Pass 1 over all entries extends pass 1 over all but the last. */
  lemma FirstPassExtends(entries: seq<Value>, sw: Switches, o: Oracles, c: Cursor)
    requires entries != [] && FirstPass(entries, sw, o, c).Ok?
    ensures var p := FirstPass(entries[..|entries| - 1], sw, o, c);
            p.Ok? && Extends(p.value, FirstPass(entries, sw, o, c).value)
  {
    FirstPassLastRenamed(entries, sw, o, c);
    var p := FirstPass(entries[..|entries| - 1], sw, o, c).value;
    var q := FirstPass(entries, sw, o, c).value;
    assert q.renamed[..|p.renamed|] == p.renamed;
  }

  /** Pass 1 over all entries extends pass 1 over any prefix of them. */
  lemma {:induction false} FirstPassExtendsPrefix(entries: seq<Value>, sw: Switches, o: Oracles, c: Cursor, j: nat)
    requires FirstPass(entries, sw, o, c).Ok? && j <= |entries|
    ensures var p := FirstPass(entries[..j], sw, o, c);
            p.Ok? && Extends(p.value, FirstPass(entries, sw, o, c).value)
  {
    if j == |entries| {
      assert entries[..j] == entries;
    } else {
      var n := |entries| - 1;
      FirstPassExtends(entries, sw, o, c);
      FirstPassExtendsPrefix(entries[..n], sw, o, c, j);
      assert entries[..n][..j] == entries[..j];
      ExtendsTransitive(FirstPass(entries[..j], sw, o, c).value, FirstPass(entries[..n], sw, o, c).value,
                        FirstPass(entries, sw, o, c).value);
    }
  }

  /** Entry `i`, if pass 1 can rename it, is the last one pass 1 over the first `i + 1` entries renamed. */
  lemma RenamedAtLast(entries: seq<Value>, sw: Switches, o: Oracles, c: Cursor, i: nat)
    requires i < |entries| && FirstPass(entries[..i], sw, o, c).Ok? && FirstPass(entries[..i + 1], sw, o, c).Ok?
    requires Identified(entries[i])
    ensures var pre := FirstPass(entries[..i], sw, o, c).value;
            var st := RenameEntry(entries[i], sw, o, pre.cursor);
            st.Ok? && RenamedAt(FirstPass(entries[..i + 1], sw, o, c).value, i, |pre.renamed|, st.value)
  {
    FirstPassPrefix(entries, sw, o, c, i, FirstPass(entries[..i], sw, o, c).value);
  }

  /**
   * The entry at `i` that pass 1 can rename is the one `RenameEntry` makes
   * at the cursor pass 1 has reached by then, and its pair is recorded after
   * those of the entries before it.
   */
  lemma FirstPassAt(entries: seq<Value>, sw: Switches, o: Oracles, c: Cursor, i: nat)
    requires FirstPass(entries, sw, o, c).Ok? && i < |entries| && Identified(entries[i])
    ensures var pre := FirstPass(entries[..i], sw, o, c);
            && pre.Ok?
            && var st := RenameEntry(entries[i], sw, o, pre.value.cursor);
               && st.Ok? && RenamedAt(FirstPass(entries, sw, o, c).value, i, |pre.value.renamed|, st.value)
  {
    FirstPassExtendsPrefix(entries, sw, o, c, i);
    FirstPassExtendsPrefix(entries, sw, o, c, i + 1);
    RenamedAtLast(entries, sw, o, c, i);
    var pre := FirstPass(entries[..i], sw, o, c).value;
    RenamedAtKept(FirstPass(entries[..i + 1], sw, o, c).value, FirstPass(entries, sw, o, c).value, i, |pre.renamed|,
                  RenameEntry(entries[i], sw, o, pre.cursor).value);
  }

  /**
   * Pass 1 renames every entry it can, in order: the entry at `i` is the
   * k-th such entry, with k the number of renamable entries before it; the
   * k-th recorded pair is its own, whose new address is its type and the
   * k-th fresh identifier, which its resource now carries. Without
   * de-identification the pair's old address is the entry's original type
   * and id.
   */
  lemma FirstPassRenames(entries: seq<Value>, sw: Switches, o: Oracles, c: Cursor, i: nat)
    requires FirstPass(entries, sw, o, c).Ok? && i < |entries| && Identified(entries[i])
    ensures var p := FirstPass(entries, sw, o, c).value;
            var k := IdentifiedCount(entries[..i]);
            && k < |p.renamed|
            && RenamedAs(p.entries[i], p.renamed[k], o.uuid(c.ids + k))
            && (!sw.deidentify ==> OldAddressOf(entries[i], p.renamed[k].0))
  {
    FirstPassAt(entries, sw, o, c, i);
    var pre := FirstPass(entries[..i], sw, o, c).value;
    FirstPassCount(entries[..i], sw, o, c);
    RenameEntryRenamedAs(entries[i], sw, o, pre.cursor);
    var st := RenameEntry(entries[i], sw, o, pre.cursor).value;
    var p := FirstPass(entries, sw, o, c).value;
    var k := IdentifiedCount(entries[..i]);
    assert k == |pre.renamed| && pre.cursor.ids == c.ids + k;
    assert p.entries[i] == st.entry && p.renamed[k] == (st.oldAddr, st.newAddr);
    SameRenamedAs(st.entry, p.entries[i], (st.oldAddr, st.newAddr), p.renamed[k], o.uuid, pre.cursor.ids, c.ids + k);
  }

  /** `RenamedAs` of equal arguments. */
  lemma SameRenamedAs(e: Value, e': Value, pair: (string, string), pair': (string, string), uuid: IdSupply, u: nat, u': nat)
    requires e == e' && pair == pair' && u == u' && RenamedAs(e, pair, uuid(u))
    ensures RenamedAs(e', pair', uuid(u'))
  {
  }

  /** `s` ends with `x`. */
  predicate EndsWith(s: string, x: string)
  {
    |x| <= |s| && s[|s| - |x|..] == x
  }

  /** The text after the last `/` of `s`, or all of `s` when it has none. */
  function AfterLastSlash(s: string): (r: string)
    ensures '/' !in r
  {
    if s == [] || s[|s| - 1] == '/' then []
    else AfterLastSlash(s[..|s| - 1]) + [s[|s| - 1]]
  }

  /** A `/`-free tail after a `/` at the end of a text is what follows its last `/`. */
  lemma {:induction false} TailAfterSlash(s: string, u: string)
    requires EndsWith(s, "/" + u) && '/' !in u
    ensures AfterLastSlash(s) == u
    decreases |u|
  {
    if u == [] {
      assert s[|s| - 1] == ("/" + u)[0];
    } else {
      var m := |u| - 1;
      assert s[|s| - 1] == u[m];
      assert s[..|s| - 1][|s| - 1 - |"/" + u[..m]|..] == "/" + u[..m] by {
        assert "/" + u == ("/" + u[..m]) + [u[m]];
      }
      TailAfterSlash(s[..|s| - 1], u[..m]);
      assert u == u[..m] + [u[m]];
    }
  }

  /** A new address ends in its identifier. */
  lemma AddressEndsWithId(t: string, u: string)
    ensures EndsWith(Address(t, u), "/" + u)
  {
    assert (t + "/" + u)[|t|..] == "/" + u;
  }

  /** The new address of a renamed entry ends in the identifier it was given. */
  lemma NewAddressEndsInId(entry: Value, sw: Switches, o: Oracles, c: Cursor)
    requires RenameEntry(entry, sw, o, c).Ok? && RenameEntry(entry, sw, o, c).value.Renamed?
    ensures EndsWith(RenameEntry(entry, sw, o, c).value.newAddr, "/" + o.uuid(c.ids))
  {
    var st := RenameEntry(entry, sw, o, c).value;
    RenameEntryRenamedAs(entry, sw, o, c);
    var t := Get(Get(st.entry.fields, "resource").value.fields, "resourceType").value.s;
    AddressEndsWithId(t, o.uuid(c.ids));
  }

  /** The k-th pair's new address ends in the identifier drawn k-th from `base` on. */
  ghost predicate FreshNumbered(rs: seq<(string, string)>, uuid: IdSupply, base: nat)
  {
    forall k :: 0 <= k < |rs| ==> EndsWith(rs[k].1, "/" + uuid(base + k))
  }

  /** The k-th new address pass 1 records ends in the k-th fresh identifier. */
  lemma {:induction false} NewAddressesEndInFreshIds(entries: seq<Value>, sw: Switches, o: Oracles, c: Cursor)
    requires FirstPass(entries, sw, o, c).Ok?
    ensures FreshNumbered(FirstPass(entries, sw, o, c).value.renamed, o.uuid, c.ids)
  {
    if entries != [] {
      var n := |entries| - 1;
      FirstPassPrefixOk(entries, sw, o, c);
      NewAddressesEndInFreshIds(entries[..n], sw, o, c);
      FreshNumberedLast(entries, sw, o, c);
    }
  }

  /** A successful pass 1 succeeds on all but the last entry. */
  lemma FirstPassPrefixOk(entries: seq<Value>, sw: Switches, o: Oracles, c: Cursor)
    requires entries != [] && FirstPass(entries, sw, o, c).Ok?
    ensures FirstPass(entries[..|entries| - 1], sw, o, c).Ok?
  {
    FirstPassLast(entries, sw, o, c);
  }

  /** The step of `NewAddressesEndInFreshIds`: the last entry keeps the pairs numbered. */
  lemma FreshNumberedLast(entries: seq<Value>, sw: Switches, o: Oracles, c: Cursor)
    requires entries != [] && FirstPass(entries, sw, o, c).Ok?
    requires FirstPass(entries[..|entries| - 1], sw, o, c).Ok?
    requires FreshNumbered(FirstPass(entries[..|entries| - 1], sw, o, c).value.renamed, o.uuid, c.ids)
    ensures FreshNumbered(FirstPass(entries, sw, o, c).value.renamed, o.uuid, c.ids)
  {
    var n := |entries| - 1;
    FirstPassLastRenamed(entries, sw, o, c);
    var p := FirstPass(entries[..n], sw, o, c).value;
    var r := FirstPass(entries, sw, o, c).value.renamed;
    var st := RenameEntry(entries[n], sw, o, p.cursor).value;
    if st.Renamed? {
      NewAddressEndsInId(entries[n], sw, o, p.cursor);
      EndsWithSnoc(p.renamed, r, st.oldAddr, st.newAddr, o.uuid, c.ids, p.cursor.ids);
    } else {
      assert r == p.renamed;
    }
  }

  /** Appending a pair whose new address ends in the next identifier keeps the pairs numbered. */
  lemma EndsWithSnoc(rs: seq<(string, string)>, rs': seq<(string, string)>, a: string, b: string, uuid: IdSupply, base: nat, next: nat)
    requires FreshNumbered(rs, uuid, base) && rs' == rs + [(a, b)]
    requires next == base + |rs| && EndsWith(b, "/" + uuid(next))
    ensures FreshNumbered(rs', uuid, base)
  {
  }

  /**
   * The pairs pass 1 records have distinct, fresh addresses when the
   * identifier supply is fresh: the identifiers drawn are distinct and hold
   * no `/`, no recorded old address ends in one of them, and the old
   * addresses are distinct. `TwoWayMap` then applies.
   */
  lemma FreshSupplyDistinct(entries: seq<Value>, sw: Switches, o: Oracles, c: Cursor)
    requires FirstPass(entries, sw, o, c).Ok?
    requires forall u, v :: c.ids <= u < v < c.ids + |entries| ==> o.uuid(u) != o.uuid(v)
    requires forall u :: c.ids <= u < c.ids + |entries| ==> '/' !in o.uuid(u)
    requires var r := FirstPass(entries, sw, o, c).value.renamed;
             forall j, u :: 0 <= j < |r| && c.ids <= u < c.ids + |entries| ==> !EndsWith(r[j].0, "/" + o.uuid(u))
    requires var r := FirstPass(entries, sw, o, c).value.renamed;
             forall j, k :: 0 <= j < k < |r| ==> r[j].0 != r[k].0
    ensures DistinctAddresses(FirstPass(entries, sw, o, c).value.renamed)
  {
    var r := FirstPass(entries, sw, o, c).value.renamed;
    NewAddressesEndInFreshIds(entries, sw, o, c);
    forall i, j | 0 <= i < |r| && 0 <= j < |r|
      ensures r[i].1 != r[j].0 && (i != j ==> r[i].0 != r[j].0 && r[i].1 != r[j].1)
    {
      assert EndsWith(r[i].1, "/" + o.uuid(c.ids + i));
      assert !EndsWith(r[j].0, "/" + o.uuid(c.ids + i));
      if i != j {
        TailAfterSlash(r[i].1, o.uuid(c.ids + i));
        TailAfterSlash(r[j].1, o.uuid(c.ids + j));
        if i < j {
          assert o.uuid(c.ids + i) != o.uuid(c.ids + j);
        } else {
          assert o.uuid(c.ids + j) != o.uuid(c.ids + i);
        }
      }
    }
  }

  /** Any placeholder record, whatever its identifier. */
  predicate IsSomePlaceholder(v: Value)
  {
    v.Obj? && |v.fields| == 4 && v.fields[1].1.Str? && IsPlaceholder(v, v.fields[1].1.s)
  }

  /** Past the original entries, the list pass 2 leaves holds only placeholders. */
  lemma RewrittenTail(entries: seq<Value>, refs: RefMap, ids: nat, ctx: Context, j: nat)
    requires Rewritten(entries, refs, ids, ctx).Ok?
    requires |entries| <= j < |Rewritten(entries, refs, ids, ctx).value.entries|
    ensures IsSomePlaceholder(Rewritten(entries, refs, ids, ctx).value.entries[j])
  {
    var q := Rewritten(entries, refs, ids, ctx).value;
    var k := j - |entries|;
    assert q.entries[|entries| + k] == q.walk.made[k] && IsPlaceholder(q.walk.made[k], ctx.uuid(ids + k));
  }

  /** What a successful clone of a bundle whose `entry` is a list is made of. */
  lemma ClonedUnfold(bundle: Value, sw: Switches, o: Oracles, items: seq<Value>)
    requires bundle.Obj? && Get(bundle.fields, "entry") == Some(Arr(items))
    requires Cloned(bundle, sw, o).Ok?
    ensures var fs := Delete(Set(bundle.fields, "type", Str("transaction")), "link");
            var p := FirstPass(items, sw, o, Cursor(0, 0));
            && p.Ok?
            && var q := Rewritten(p.value.entries, p.value.refs, p.value.cursor.ids, Context(sw.placeholders, o.uuid));
               && q.Ok?
               && Cloned(bundle, sw, o) == Ok(Obj(Set(fs, "entry", Arr(q.value.entries))))
  {
    var fs := Set(bundle.fields, "type", Str("transaction"));
    assert Get(Delete(fs, "link"), "entry") == Some(Arr(items));
  }

  /** A successful clone is the bundle's fields with the new type, without `link`, and some new `entry`. */
  lemma ClonedShape(bundle: Value, sw: Switches, o: Oracles) returns (ev': Value)
    requires Cloned(bundle, sw, o).Ok?
    ensures bundle.Obj?
    ensures Cloned(bundle, sw, o) == Ok(Obj(Set(Delete(Set(bundle.fields, "type", Str("transaction")), "link"), "entry", ev')))
  {
    var shell := Delete(Set(bundle.fields, "type", Str("transaction")), "link");
    var ev := Subscript(Obj(shell), "entry");
    assert ev.Ok?;
    var items := Iterate(ev.value);
    assert items.Ok?;
    var p := FirstPass(items.value, sw, o, Cursor(0, 0));
    assert p.Ok?;
    var q := Rewritten(p.value.entries, p.value.refs, p.value.cursor.ids, Context(sw.placeholders, o.uuid));
    assert q.Ok?;
    ev' := if ev.value.Arr? then Arr(q.value.entries) else ev.value;
  }

  /** The cloned bundle is a transaction without `link`; every other top-level field but `entry` is kept. */
  lemma ClonedKeepsOtherFields(bundle: Value, sw: Switches, o: Oracles)
    requires Cloned(bundle, sw, o).Ok?
    ensures bundle.Obj?
    ensures var out := Cloned(bundle, sw, o).value;
            forall k :: k !in {"type", "link", "entry"} ==> Get(out.fields, k) == Get(bundle.fields, k)
  {
    var ev' := ClonedShape(bundle, sw, o);
  }

  /**
   * The entry list of the cloned bundle holds the cloned entries, in their
   * order, followed by the placeholders; without placeholders it is exactly
   * as long as the original list.
   */
  lemma ClonedEntryList(bundle: Value, sw: Switches, o: Oracles, items: seq<Value>)
    requires bundle.Obj? && Get(bundle.fields, "entry") == Some(Arr(items))
    requires Cloned(bundle, sw, o).Ok?
    ensures var out := Cloned(bundle, sw, o).value;
            && Get(out.fields, "entry").Some? && Get(out.fields, "entry").value.Arr?
            && var es := Get(out.fields, "entry").value.items;
               && |items| <= |es|
               && (!sw.placeholders ==> |es| == |items|)
               && forall j :: |items| <= j < |es| ==> IsSomePlaceholder(es[j])
  {
    ClonedUnfold(bundle, sw, o, items);
    var p := FirstPass(items, sw, o, Cursor(0, 0)).value;
    var ctx := Context(sw.placeholders, o.uuid);
    var q := Rewritten(p.entries, p.refs, p.cursor.ids, ctx).value;
    forall j | |items| <= j < |q.entries|
      ensures IsSomePlaceholder(q.entries[j])
    {
      RewrittenTail(p.entries, p.refs, p.cursor.ids, ctx, j);
    }
  }
}
