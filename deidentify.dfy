/**
 * `deidentify_fhir_resource`: strips `meta` from one record and, when the
 * configuration names the record's type, applies the wildcard rules and then
 * the type's own rules, in list order, to the fields the record has.
 */
module Deidentify {
  import opened Json
  import opened Randomization

  /** One configured rule. A rule without `params` fails only on the actions that read them. */
  datatype Rule = Rule(field: string, action: string, params: Option<Value>)

  /** The rule table, keyed by resource type and by the wildcard "*". */
  type Config = map<string, seq<Rule>>

  /**
   * `eval` of a merge expression with `input` bound to the running value: the
   * expression (a string value, after `%input%` has become `input`) and the
   * running value give the new value, or None when evaluation raises.
   */
  type Evaluator = (Value, Value) -> Option<Value>

  /** The record's fields as the rules leave them, and the next unused draw. */
  datatype Scrub = Scrub(fields: Fields, next: nat)

  // ------------------------------------------------------------------ merge

  /**
   * One pass of the merge loop body: a string item is rewritten and evaluated;
   * anything that raises (a failing evaluation, `.replace` on a non-string)
   * is caught and leaves the running value as it was.
   */
  function MergeStep(item: Value, input: Value, eval: Evaluator): (r: Value)
    ensures !item.Str? && !item.Date? ==> r == input
    ensures item.Str? && eval(Str(ReplaceAll(item.s, "%input%", "input")), input).None? ==> r == input
    ensures item.Str? && eval(Str(ReplaceAll(item.s, "%input%", "input")), input).Some? ==>
              r == eval(Str(ReplaceAll(item.s, "%input%", "input")), input).value
    ensures item.Date? ==> r == (if eval(item, input).Some? then eval(item, input).value else input)
  {
    var expr := if item.Str? then Str(ReplaceAll(item.s, "%input%", "input")) else item;
    if !(item.Str? || item.Date?) then input
    else match eval(expr, input)
      case None => input
      case Some(v) => v
  }

  /** The running value after the merge loop has taken `items` in order. */
  function MergeFold(items: seq<Value>, input: Value, eval: Evaluator): Value
  {
    if items == [] then input
    else MergeStep(items[|items| - 1], MergeFold(items[..|items| - 1], input, eval), eval)
  }

  /** The merge loop. */
  method Merge(items: seq<Value>, input: Value, eval: Evaluator) returns (out: Value)
    ensures out == MergeFold(items, input, eval)
  {
    out := input;
    for i := 0 to |items|
      invariant out == MergeFold(items[..i], input, eval)
    {
      assert items[..i + 1][..i] == items[..i];
      out := MergeStep(items[i], out, eval);
    }
    assert items[..|items|] == items;
  }

  /** Folding two lists of expressions is folding the second from where the first left off. */
  lemma {:induction false} MergeFoldAppend(xs: seq<Value>, ys: seq<Value>, input: Value, eval: Evaluator)
    ensures MergeFold(xs + ys, input, eval) == MergeFold(ys, MergeFold(xs, input, eval), eval)
  {
    if ys == [] {
      assert xs + ys == xs;
    } else {
      var zs := xs + ys;
      assert zs[..|zs| - 1] == xs + ys[..|ys| - 1];
      assert zs[|zs| - 1] == ys[|ys| - 1];
      MergeFoldAppend(xs, ys[..|ys| - 1], input, eval);
    }
  }

  /** When no expression can be evaluated the field keeps its value. */
  lemma {:induction false} MergeWithoutSuccessKeepsValue(items: seq<Value>, input: Value, eval: Evaluator)
    requires forall e, v :: eval(e, v).None?
    ensures MergeFold(items, input, eval) == input
  {
    if items != [] {
      MergeWithoutSuccessKeepsValue(items[..|items| - 1], input, eval);
    }
  }

  /** A merge whose last expression evaluates takes that expression's value. */
  lemma LastSuccessfulExpressionWins(items: seq<Value>, last: string, input: Value, eval: Evaluator, v: Value)
    requires forall w :: eval(Str(ReplaceAll(last, "%input%", "input")), w) == Some(v)
    ensures MergeFold(items + [Str(last)], input, eval) == v
  {
    assert (items + [Str(last)])[..|items|] == items;
  }

  // ------------------------------------------------------------------ rules

  /** One rule applied to the record's fields. */
  function ApplyRule(fs: Fields, rule: Rule, eval: Evaluator, tape: Tape, at: nat): (r: Result<Scrub>)
    // only the rule's own field can change, and no field is added
    ensures r.Ok? ==> forall k :: k != rule.field ==> Get(r.value.fields, k) == Get(fs, k)
    ensures r.Ok? ==> forall k :: Has(r.value.fields, k) ==> Has(fs, k)
    ensures r.Ok? && rule.action != "erase" ==> Keys(r.value.fields) == Keys(fs)
    ensures r.Ok? ==> r.value.next >= at
    // a rule for a field the record lacks, and a rule with an unknown action, do nothing
    ensures !Has(fs, rule.field) ==> r == Ok(Scrub(fs, at))
    ensures rule.action !in {"erase", "replace", "randomize", "merge"} ==> r == Ok(Scrub(fs, at))
    ensures Has(fs, rule.field) && rule.action == "erase" ==> r.Ok? && !Has(r.value.fields, rule.field)
    ensures Has(fs, rule.field) && rule.action == "replace" ==>
              if rule.params.Some? then r.Ok? && Get(r.value.fields, rule.field) == Some(rule.params.value)
              else r == Err(KeyError("params"))
    ensures Has(fs, rule.field) && rule.action == "randomize" && rule.params.Some? ==>
              var d := Randomize(rule.field, Get(fs, rule.field).value, rule.params.value, tape, at);
              (r.Ok? <==> d.Ok?) && (r.Ok? ==> Get(r.value.fields, rule.field) == Some(d.value.value))
    ensures Has(fs, rule.field) && rule.action == "merge" && rule.params.Some? ==>
              var items := Iterate(rule.params.value);
              (r.Ok? <==> items.Ok?) &&
              (r.Ok? ==> Get(r.value.fields, rule.field) == Some(MergeFold(items.value, Get(fs, rule.field).value, eval)))
    ensures Has(fs, rule.field) && rule.action in {"randomize", "merge"} && rule.params.None? ==> r == Err(KeyError("params"))
  {
    if !Has(fs, rule.field) then Ok(Scrub(fs, at))
    else if rule.action == "erase" then Ok(Scrub(Delete(fs, rule.field), at))
    else if rule.action == "replace" then
      (match rule.params
       case None => Err(KeyError("params"))
       case Some(p) => Ok(Scrub(Set(fs, rule.field, p), at)))
    else if rule.action == "randomize" then
      (match rule.params
       case None => Err(KeyError("params"))
       case Some(p) =>
         match Randomize(rule.field, Get(fs, rule.field).value, p, tape, at)
         case Err(f) => Err(f)
         case Ok(d) => Ok(Scrub(Set(fs, rule.field, d.value), d.next)))
    else if rule.action == "merge" then
      (match rule.params
       case None => Err(KeyError("params"))
       case Some(p) =>
         match Iterate(p)
         case Err(f) => Err(f)
         case Ok(items) => Ok(Scrub(Set(fs, rule.field, MergeFold(items, Get(fs, rule.field).value, eval)), at)))
    else Ok(Scrub(fs, at))
  }

  /** The rules of one list applied in order; the first failure aborts. */
  function ApplyRules(start: Scrub, rules: seq<Rule>, eval: Evaluator, tape: Tape): Result<Scrub>
  {
    if rules == [] then Ok(start)
    else match ApplyRules(start, rules[..|rules| - 1], eval, tape)
      case Err(f) => Err(f)
      case Ok(s) => ApplyRule(s.fields, rules[|rules| - 1], eval, tape, s.next)
  }

  /** The rule lists of `keys` applied in turn; a key the table lacks raises. */
  function ApplyKeys(start: Scrub, cfg: Config, keys: seq<string>, eval: Evaluator, tape: Tape): Result<Scrub>
  {
    if keys == [] then Ok(start)
    else match ApplyKeys(start, cfg, keys[..|keys| - 1], eval, tape)
      case Err(f) => Err(f)
      case Ok(s) =>
        var key := keys[|keys| - 1];
        if key !in cfg then Err(KeyError(key)) else ApplyRules(s, cfg[key], eval, tape)
  }

  /**
   * The record after de-identification. A resource type that is not a string
   * is not a key of the table (whose keys are strings), unless it is a list
   * or a dict, which cannot be looked up at all.
   */
  function Deidentified(resource: Value, cfg: Config, eval: Evaluator, tape: Tape, at: nat): Result<Scrub>
  {
    if !resource.Obj? then Err(TypeError)
    else if !Has(resource.fields, "meta") then Err(KeyError("meta"))
    else
      var fs := Delete(resource.fields, "meta");
      match Get(fs, "resourceType")
      case None => Err(KeyError("resourceType"))
      case Some(t) =>
        if t.Obj? || t.Arr? then Err(TypeError)
        else if !t.Str? || t.s !in cfg then Ok(Scrub(fs, at))
        else ApplyKeys(Scrub(fs, at), cfg, ["*", t.s], eval, tape)
  }

  /** One rule, with the merge loop run as a loop. */
  method ApplyOneRule(fs: Fields, rule: Rule, eval: Evaluator, tape: Tape, at: nat) returns (r: Result<Scrub>)
    ensures r == ApplyRule(fs, rule, eval, tape, at)
  {
    if Has(fs, rule.field) && rule.action == "merge" && rule.params.Some? {
      var items := Iterate(rule.params.value);
      if items.Err? {
        return Err(items.fault);
      }
      var merged := Merge(items.value, Get(fs, rule.field).value, eval);
      return Ok(Scrub(Set(fs, rule.field, merged), at));
    }
    r := ApplyRule(fs, rule, eval, tape, at);
  }

  /** `deidentify_fhir_resource`, with its loops over the keys and over each key's rules. */
  method DeidentifyResource(resource: Value, cfg: Config, eval: Evaluator, tape: Tape, at: nat) returns (r: Result<Scrub>)
    ensures r == Deidentified(resource, cfg, eval, tape, at)
  {
    if !resource.Obj? {
      return Err(TypeError);
    }
    if !Has(resource.fields, "meta") {
      return Err(KeyError("meta"));
    }
    var fs := Delete(resource.fields, "meta");
    var t := Get(fs, "resourceType");
    if t.None? {
      return Err(KeyError("resourceType"));
    }
    if t.value.Obj? || t.value.Arr? {
      return Err(TypeError);
    }
    if !t.value.Str? || t.value.s !in cfg {
      return Ok(Scrub(fs, at));
    }
    var start := Scrub(fs, at);
    var keys := ["*", t.value.s];
    var cur := start;
    for j := 0 to |keys|
      invariant ApplyKeys(start, cfg, keys[..j], eval, tape) == Ok(cur)
    {
      assert keys[..j + 1][..j] == keys[..j];
      if keys[j] !in cfg {
        KeysErrorSticks(start, cfg, keys, j + 1, eval, tape);
        return Err(KeyError(keys[j]));
      }
      var rules := cfg[keys[j]];
      var before := cur;
      for i := 0 to |rules|
        invariant ApplyRules(before, rules[..i], eval, tape) == Ok(cur)
      {
        assert rules[..i + 1][..i] == rules[..i];
        var step := ApplyOneRule(cur.fields, rules[i], eval, tape, cur.next);
        if step.Err? {
          RulesErrorSticks(before, rules, i + 1, eval, tape);
          assert rules[..|rules|] == rules;
          KeysErrorSticks(start, cfg, keys, j + 1, eval, tape);
          return step;
        }
        cur := step.value;
      }
      assert rules[..|rules|] == rules;
    }
    assert keys[..|keys|] == keys;
    r := Ok(cur);
  }

  /** A failing rule ends the rule list: every longer prefix fails the same way. */
  lemma {:induction false} RulesErrorSticks(start: Scrub, rules: seq<Rule>, n: nat, eval: Evaluator, tape: Tape)
    requires n <= |rules| && ApplyRules(start, rules[..n], eval, tape).Err?
    ensures ApplyRules(start, rules, eval, tape) == ApplyRules(start, rules[..n], eval, tape)
    decreases |rules| - n
  {
    if n < |rules| {
      assert rules[..n + 1][..n] == rules[..n];
      RulesErrorSticks(start, rules, n + 1, eval, tape);
    } else {
      assert rules[..n] == rules;
    }
  }

  lemma {:induction false} KeysErrorSticks(start: Scrub, cfg: Config, keys: seq<string>, n: nat, eval: Evaluator, tape: Tape)
    requires n <= |keys| && ApplyKeys(start, cfg, keys[..n], eval, tape).Err?
    ensures ApplyKeys(start, cfg, keys, eval, tape) == ApplyKeys(start, cfg, keys[..n], eval, tape)
    decreases |keys| - n
  {
    if n < |keys| {
      assert keys[..n + 1][..n] == keys[..n];
      KeysErrorSticks(start, cfg, keys, n + 1, eval, tape);
    } else {
      assert keys[..n] == keys;
    }
  }

  // ------------------------------------------------------------- properties

  /** Applying two rule lists in turn is applying their concatenation. */
  lemma {:induction false} ApplyRulesAppend(start: Scrub, xs: seq<Rule>, ys: seq<Rule>, eval: Evaluator, tape: Tape)
    ensures ApplyRules(start, xs + ys, eval, tape) ==
            match ApplyRules(start, xs, eval, tape)
            case Err(f) => Err(f)
            case Ok(s) => ApplyRules(s, ys, eval, tape)
  {
    if ys == [] {
      assert xs + ys == xs;
    } else {
      var zs := xs + ys;
      assert zs[..|zs| - 1] == xs + ys[..|ys| - 1];
      assert zs[|zs| - 1] == ys[|ys| - 1];
      ApplyRulesAppend(start, xs, ys[..|ys| - 1], eval, tape);
    }
  }

  /** The wildcard rules run first, then the type's own rules, as one list. */
  lemma WildcardRulesRunFirst(start: Scrub, cfg: Config, t: string, eval: Evaluator, tape: Tape)
    requires "*" in cfg && t in cfg
    ensures ApplyKeys(start, cfg, ["*", t], eval, tape) == ApplyRules(start, cfg["*"] + cfg[t], eval, tape)
  {
    assert ["*", t][..1] == ["*"];
    assert ["*"][..0] == [];
    assert ApplyKeys(start, cfg, ["*"], eval, tape) == ApplyRules(start, cfg["*"], eval, tape);
    ApplyRulesAppend(start, cfg["*"], cfg[t], eval, tape);
  }

  /** Some rule of the list is about field `k`. */
  predicate NamesField(rules: seq<Rule>, k: string)
  {
    exists i :: 0 <= i < |rules| && rules[i].field == k
  }

  /** Rules never add a field, and a field no rule names keeps its value. */
  lemma {:induction false} RulesOnlyTouchNamedFields(start: Scrub, rules: seq<Rule>, eval: Evaluator, tape: Tape)
    ensures var r := ApplyRules(start, rules, eval, tape);
            r.Ok? ==> (forall k :: Has(r.value.fields, k) ==> Has(start.fields, k))
                      && (forall k :: !NamesField(rules, k) ==> Get(r.value.fields, k) == Get(start.fields, k))
  {
    if rules != [] {
      var init := rules[..|rules| - 1];
      RulesOnlyTouchNamedFields(start, init, eval, tape);
      assert forall k :: !NamesField(rules, k) ==> !NamesField(init, k);
    }
  }

  /** `meta` is always gone from a de-identified record, whether or not any rule applied. */
  lemma MetaAlwaysRemoved(resource: Value, cfg: Config, eval: Evaluator, tape: Tape, at: nat)
    ensures var r := Deidentified(resource, cfg, eval, tape, at);
            r.Ok? ==> !Has(r.value.fields, "meta")
    ensures resource.Obj? && !Has(resource.fields, "meta") ==> Deidentified(resource, cfg, eval, tape, at) == Err(KeyError("meta"))
  {
    if resource.Obj? && Has(resource.fields, "meta") {
      var fs := Delete(resource.fields, "meta");
      var t := Get(fs, "resourceType");
      if t.Some? && t.value.Str? && t.value.s in cfg {
        var start := Scrub(fs, at);
        ConfiguredTypeRunsItsRules(resource, cfg, eval, tape, at);
        if "*" in cfg {
          RulesOnlyTouchNamedFields(start, cfg["*"] + cfg[t.value.s], eval, tape);
        }
      }
    }
  }

  /**
   * A record whose type the table names goes through the wildcard list and
   * then its own list; a table without a wildcard list raises.
   */
  lemma ConfiguredTypeRunsItsRules(resource: Value, cfg: Config, eval: Evaluator, tape: Tape, at: nat)
    requires resource.Obj? && Has(resource.fields, "meta")
    requires var t := Get(Delete(resource.fields, "meta"), "resourceType");
             t.Some? && t.value.Str? && t.value.s in cfg
    ensures var t := Get(Delete(resource.fields, "meta"), "resourceType").value.s;
            var start := Scrub(Delete(resource.fields, "meta"), at);
            Deidentified(resource, cfg, eval, tape, at) ==
              if "*" in cfg then ApplyRules(start, cfg["*"] + cfg[t], eval, tape) else Err(KeyError("*"))
  {
    var fs := Delete(resource.fields, "meta");
    var t := Get(fs, "resourceType").value.s;
    var start := Scrub(fs, at);
    assert Deidentified(resource, cfg, eval, tape, at) == ApplyKeys(start, cfg, ["*", t], eval, tape);
    if "*" in cfg {
      WildcardRulesRunFirst(start, cfg, t, eval, tape);
    } else {
      assert ["*", t][..1] == ["*"];
      assert ["*"][..0] == [];
      assert ApplyKeys(start, cfg, ["*"], eval, tape) == Err(KeyError("*"));
    }
  }

  /** A record whose type the table does not name loses `meta` and nothing else, wildcard rules included. */
  lemma UnconfiguredTypeOnlyLosesMeta(resource: Value, cfg: Config, eval: Evaluator, tape: Tape, at: nat)
    requires resource.Obj? && Has(resource.fields, "meta")
    requires Get(resource.fields, "resourceType").Some?
    requires Get(resource.fields, "resourceType").value.Str? && Get(resource.fields, "resourceType").value.s !in cfg
    ensures Deidentified(resource, cfg, eval, tape, at) == Ok(Scrub(Delete(resource.fields, "meta"), at))
  {
  }

  /**
   * A field that none of the applicable rules names keeps its value; every
   * field of the result was already in the record.
   */
  lemma UnnamedFieldsKept(resource: Value, cfg: Config, eval: Evaluator, tape: Tape, at: nat, k: string)
    requires k != "meta"
    requires forall key | key in cfg :: forall i :: 0 <= i < |cfg[key]| ==> cfg[key][i].field != k
    ensures var r := Deidentified(resource, cfg, eval, tape, at);
            r.Ok? ==> Get(r.value.fields, k) == Get(resource.fields, k)
                      && forall k' :: Has(r.value.fields, k') ==> Has(resource.fields, k')
  {
    if resource.Obj? && Has(resource.fields, "meta") {
      var fs := Delete(resource.fields, "meta");
      var t := Get(fs, "resourceType");
      if t.Some? && t.value.Str? && t.value.s in cfg && "*" in cfg {
        var start := Scrub(fs, at);
        var all := cfg["*"] + cfg[t.value.s];
        ConfiguredTypeRunsItsRules(resource, cfg, eval, tape, at);
        RulesOnlyTouchNamedFields(start, all, eval, tape);
        assert !NamesField(all, k) by {
          forall i | 0 <= i < |all| ensures all[i].field != k {
            if i < |cfg["*"]| {
              assert all[i] == cfg["*"][i];
            } else {
              assert all[i] == cfg[t.value.s][i - |cfg["*"]|];
            }
          }
        }
        assert Get(fs, k) == Get(resource.fields, k);
      } else if t.Some? && t.value.Str? && t.value.s in cfg {
        ConfiguredTypeRunsItsRules(resource, cfg, eval, tape, at);
      }
    }
  }

  /** "birthDate" names a date field: its lower-case form holds "date". */
  lemma BirthDateIsDateField()
    ensures IsDateField("birthDate")
  {
    assert Lower("birthDate") == "birthdate";
    assert OccursAt("birthdate", "date", 5);
  }

  /** The Patient rules of the test configuration, and that configuration itself. */
  function PatientRules(): seq<Rule>
  {
    [Rule("name", "erase", None),
     Rule("birthDate", "randomize", Some(Obj([("min", Int(1)), ("max", Int(2))]))),
     Rule("gender", "replace", Some(Str("unknown")))]
  }

  function PatientRecord(name: Value, birth: Ordinal): Value
  {
    Obj([("resourceType", Str("Patient")), ("meta", Obj([])), ("name", name),
         ("birthDate", Date(birth)), ("gender", Str("male"))])
  }

  /** The record's fields once `meta` is deleted. */
  function PatientFields(name: Value, birth: Ordinal): Fields
  {
    [("resourceType", Str("Patient")), ("name", name), ("birthDate", Date(birth)), ("gender", Str("male"))]
  }

  lemma {:induction false} PatientStart(name: Value, birth: Ordinal, eval: Evaluator, tape: Tape, at: nat)
    ensures var fs := PatientFields(name, birth);
            Deidentified(PatientRecord(name, birth), map["*" := [], "Patient" := PatientRules()], eval, tape, at)
              == ApplyRules(Scrub(fs, at), PatientRules(), eval, tape)
  {
    var x := PatientRecord(name, birth).fields;
    var fs := PatientFields(name, birth);
    var cfg := map["*" := [], "Patient" := PatientRules()];
    PatientMetaDeleted(name, birth);
    GetFirst(fs, 0);
    ConfiguredTypeRunsItsRules(PatientRecord(name, birth), cfg, eval, tape, at);
    assert cfg["*"] + cfg["Patient"] == PatientRules();
  }

  lemma PatientMetaDeleted(name: Value, birth: Ordinal)
    ensures Has(PatientRecord(name, birth).fields, "meta")
    ensures Delete(PatientRecord(name, birth).fields, "meta") == PatientFields(name, birth)
  {
    var x := PatientRecord(name, birth).fields;
    if Has(x[2..], "meta") {
      var j := HasIndex(x[2..], "meta");
      assert false;
    }
    assert Delete(x[2..], "meta") == x[2..];
    assert Delete(x[1..], "meta") == x[2..];
    assert Delete(x, "meta") == [x[0]] + x[2..];
    assert x[1].0 == "meta";
  }

  lemma PatientFieldsLookup(name: Value, birth: Ordinal)
    ensures var fs := PatientFields(name, birth);
            && Get(fs, "resourceType") == Some(Str("Patient")) && !Has(fs, "meta")
            && Has(fs, "name") && Get(fs, "birthDate") == Some(Date(birth)) && Has(fs, "gender")
  {
    var fs := PatientFields(name, birth);
    GetFirst(fs, 1);
    GetFirst(fs, 2);
    GetFirst(fs, 3);
    if Has(fs, "meta") {
      var j := HasIndex(fs, "meta");
      assert false;
    }
  }

  lemma SingleRule(start: Scrub, rule: Rule, eval: Evaluator, tape: Tape)
    ensures ApplyRules(start, [rule], eval, tape) == ApplyRule(start.fields, rule, eval, tape, start.next)
  {
    assert [rule][..0] == [];
  }

  lemma RulesSnoc(start: Scrub, rules: seq<Rule>, rule: Rule, eval: Evaluator, tape: Tape)
    ensures ApplyRules(start, rules + [rule], eval, tape) ==
              match ApplyRules(start, rules, eval, tape)
              case Err(f) => Err(f)
              case Ok(s) => ApplyRule(s.fields, rule, eval, tape, s.next)
  {
    assert (rules + [rule])[..|rules|] == rules;
  }

  /** The first two Patient rules: `name` erased, `birthDate` moved within its window. */
  lemma PatientFirstTwoRules(fs: Fields, birth: Ordinal, eval: Evaluator, tape: Tape, at: nat) returns (s2: Scrub)
    requires 2 <= birth && birth + 2 <= MaxOrdinal
    requires Has(fs, "name") && Get(fs, "birthDate") == Some(Date(birth)) && Has(fs, "gender")
    ensures ApplyRules(Scrub(fs, at), PatientRules()[..2], eval, tape) == Ok(s2)
    ensures !Has(s2.fields, "name") && Has(s2.fields, "gender")
    ensures forall k :: k != "name" && k != "birthDate" ==> Get(s2.fields, k) == Get(fs, k)
    ensures forall k :: Has(s2.fields, k) ==> Has(fs, k)
    ensures Get(s2.fields, "birthDate").Some? && Get(s2.fields, "birthDate").value.Date?
    ensures birth - 1 <= Get(s2.fields, "birthDate").value.ordinal <= birth + 2
  {
    var rules := PatientRules();
    var s1 := PatientFirstRule(fs, birth, eval, tape, at);
    BirthDateIsDateField();
    DateStaysInWindow("birthDate", birth, 1, 2, tape, s1.next);
    RulesSnoc(Scrub(fs, at), rules[..1], rules[1], eval, tape);
    assert rules[..1] + [rules[1]] == rules[..2];
    s2 := ApplyRule(s1.fields, rules[1], eval, tape, s1.next).value;
  }

  /** The first Patient rule: `name` erased, the rest kept. */
  lemma PatientFirstRule(fs: Fields, birth: Ordinal, eval: Evaluator, tape: Tape, at: nat) returns (s1: Scrub)
    requires Has(fs, "name") && Get(fs, "birthDate") == Some(Date(birth)) && Has(fs, "gender")
    ensures ApplyRules(Scrub(fs, at), PatientRules()[..1], eval, tape) == Ok(s1)
    ensures !Has(s1.fields, "name") && Has(s1.fields, "gender") && Get(s1.fields, "birthDate") == Some(Date(birth))
    ensures forall k :: k != "name" ==> Get(s1.fields, k) == Get(fs, k)
    ensures forall k :: Has(s1.fields, k) ==> Has(fs, k)
  {
    var rules := PatientRules();
    SingleRule(Scrub(fs, at), rules[0], eval, tape);
    assert rules[..1] == [rules[0]];
    s1 := ApplyRule(fs, rules[0], eval, tape, at).value;
    assert Get(s1.fields, "gender") == Get(fs, "gender");
  }

  /** The Patient rules on any record holding a name, a birth date and a gender. */
  lemma PatientRulesApply(fs: Fields, birth: Ordinal, eval: Evaluator, tape: Tape, at: nat)
    requires 2 <= birth && birth + 2 <= MaxOrdinal
    requires Has(fs, "name") && Get(fs, "birthDate") == Some(Date(birth)) && Has(fs, "gender")
    ensures var r := ApplyRules(Scrub(fs, at), PatientRules(), eval, tape);
            && r.Ok? && !Has(r.value.fields, "name")
            && Get(r.value.fields, "gender") == Some(Str("unknown"))
            && (forall k :: k != "name" && k != "birthDate" && k != "gender" ==> Get(r.value.fields, k) == Get(fs, k))
            && (forall k :: Has(r.value.fields, k) ==> Has(fs, k))
            && Get(r.value.fields, "birthDate").Some? && Get(r.value.fields, "birthDate").value.Date?
            && birth - 1 <= Get(r.value.fields, "birthDate").value.ordinal <= birth + 2
  {
    var rules := PatientRules();
    var s2 := PatientFirstTwoRules(fs, birth, eval, tape, at);
    RulesSnoc(Scrub(fs, at), rules[..2], rules[2], eval, tape);
    assert rules[..2] + [rules[2]] == rules;
    var s3 := ApplyRule(s2.fields, rules[2], eval, tape, s2.next);
    assert s3.Ok? && Get(s3.value.fields, "gender") == Some(Str("unknown"));
  }

  /**
   * The Patient rules of the test configuration (erase `name`, randomize
   * `birthDate` one day back to two days on, replace `gender` by "unknown")
   * on a Patient record: the name is gone, the gender is "unknown", the birth
   * date moved by at most those days, and `meta` is gone.
   */
  lemma PatientRulesScrub(name: Value, birth: Ordinal, eval: Evaluator, tape: Tape, at: nat)
    requires 2 <= birth && birth + 2 <= MaxOrdinal
    ensures var r := Deidentified(PatientRecord(name, birth), map["*" := [], "Patient" := PatientRules()], eval, tape, at);
            && r.Ok? && !Has(r.value.fields, "name") && !Has(r.value.fields, "meta")
            && Get(r.value.fields, "gender") == Some(Str("unknown"))
            && Get(r.value.fields, "resourceType") == Some(Str("Patient"))
            && Get(r.value.fields, "birthDate").Some? && Get(r.value.fields, "birthDate").value.Date?
            && birth - 1 <= Get(r.value.fields, "birthDate").value.ordinal <= birth + 2
  {
    var fs := PatientFields(name, birth);
    PatientStart(name, birth, eval, tape, at);
    PatientFieldsLookup(name, birth);
    PatientRulesApply(fs, birth, eval, tape, at);
  }
}
