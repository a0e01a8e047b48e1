/**
 * The `randomize` action: a new value drawn near the prior one. Randomness is a
 * tape of draws read from a cursor; `random.randint(lo, hi)` takes one draw and
 * `random.choices(string.printable, k=n)` takes one draw per character.
 */
module Randomization {
  import opened Json

  /** `string.printable`: digits, ASCII letters, punctuation and the six whitespace characters. */
  const Printable: string :=
    "0123456789abcdefghijklmnopqrstuvwxyzABCDEFGHIJKLMNOPQRSTUVWXYZ"
    + "!\"#$%&'()*+,-./:;<=>?@[\\]^_`{|}~"
    + " \t\n\r\U{000B}\U{000C}"

  /** A source of randomness: the `n`-th draw of the generator. */
  type Tape = nat -> nat

  /** A randomized value and the cursor of the first unused draw. */
  datatype Drawn = Drawn(value: Value, next: nat)

  /** `"date" in field_name.lower()` */
  predicate IsDateField(field: string)
  {
    Contains(Lower(field), "date")
  }

  /** `random.randint(lo, hi)` on a non-empty range, fed by one draw. */
  function RandInt(lo: int, hi: int, d: nat): (r: int)
    requires lo <= hi
    ensures lo <= r <= hi
  {
    lo + d % (hi - lo + 1)
  }

  /** Reads `params[key]` as a number of days or an integer offset; a boolean counts as 0 or 1. */
  function IntParam(params: Value, key: string): (r: Result<int>)
    ensures r.Ok? <==> Subscript(params, key).Ok? && (Subscript(params, key).value.Int? || Subscript(params, key).value.Bool?)
    ensures r.Ok? && Subscript(params, key).value.Int? ==> r.value == Subscript(params, key).value.i
    ensures Subscript(params, key).Err? ==> r == Err(Subscript(params, key).fault)
  {
    match Subscript(params, key)
    case Err(f) => Err(f)
    case Ok(v) =>
      match v
      case Int(i) => Ok(i)
      case Bool(b) => Ok(if b then 1 else 0)
      case Float(_) => Err(NotModelled)
      case _ => Err(TypeError)
  }

  /** `len(old_value)` for the values that reach the text branch; an ISO date has ten characters. */
  function TextLength(v: Value): (r: Result<nat>)
    ensures v.Str? ==> r == Ok(|v.s|)
    ensures v.Arr? ==> r == Ok(|v.items|)
    ensures v.Obj? ==> r.Ok? && r.value == |v.fields|
    ensures r.Err? <==> v.Null? || v.Bool? || v.Int? || v.Float?
  {
    match v
    case Str(s) => Ok(|s|)
    case Date(_) => Ok(10)
    case Arr(items) => Ok(|items|)
    case Obj(fs) => Ok(|fs|)
    case _ => Err(TypeError)
  }

  /**
   * `"length" in params and isinstance(params["length"], int)`: the requested
   * length when there is one. On a list or a string `in` looks for an element
   * or a substring, and a hit makes the following subscript fail.
   */
  function LengthOverride(params: Value): (r: Result<Option<int>>)
    ensures params.Obj? ==> r.Ok?
    ensures r.Ok? && r.value.Some? ==> Subscript(params, "length").Ok?
    ensures Subscript(params, "length").Ok? && Subscript(params, "length").value.Int? ==>
              r == Ok(Some(Subscript(params, "length").value.i))
    ensures In(params, "length") == Ok(false) ==> r == Ok(None)
    ensures Subscript(params, "length").Ok? && Subscript(params, "length").value.Bool? ==>
              r == Ok(Some(if Subscript(params, "length").value.b then 1 else 0))
    ensures Subscript(params, "length").Ok? && !Subscript(params, "length").value.Int? && !Subscript(params, "length").value.Bool? ==>
              r == Ok(None)
    ensures In(params, "length").Err? ==> r == Err(In(params, "length").fault)
    ensures In(params, "length") == Ok(true) && Subscript(params, "length").Err? ==> r == Err(Subscript(params, "length").fault)
  {
    match In(params, "length")
    case Err(f) => Err(f)
    case Ok(false) => Ok(None)
    case Ok(true) =>
      match Subscript(params, "length")
      case Err(f) => Err(f)
      case Ok(Int(n)) => Ok(Some(n))
      case Ok(Bool(b)) => Ok(Some(if b then 1 else 0))
      case Ok(_) => Ok(None)
  }

  /** The date branch: a day drawn uniformly from `seed - min` to `seed + max`. */
  function RandomizeDate(prior: Value, params: Value, tape: Tape, at: nat): (r: Result<Drawn>)
    ensures r.Ok? ==> prior.Date? && r.value.value.Date? && r.value.next == at + 1
    ensures r.Ok? ==> IntParam(params, "min").Ok? && IntParam(params, "max").Ok?
                      && prior.ordinal - IntParam(params, "min").value <= r.value.value.ordinal
                      && r.value.value.ordinal <= prior.ordinal + IntParam(params, "max").value
    ensures prior.Date? && IntParam(params, "min").Ok? && IntParam(params, "max").Ok? ==>
              (r.Ok? <==> 1 <= prior.ordinal - IntParam(params, "min").value
                          && prior.ordinal + IntParam(params, "max").value <= MaxOrdinal
                          && IntParam(params, "min").value + IntParam(params, "max").value >= 0)
    ensures prior.Str? ==> r == Err(ValueError)
    ensures !prior.Str? && !prior.Date? ==> r == Err(TypeError)
  {
    match prior
    case Date(seed) =>
      (match IntParam(params, "min")
       case Err(f) => Err(f)
       case Ok(lo) =>
         var start := seed - lo;
         if !(1 <= start <= MaxOrdinal) then Err(OverflowError)
         else
           match IntParam(params, "max")
           case Err(f) => Err(f)
           case Ok(hi) =>
             var end := seed + hi;
             if !(1 <= end <= MaxOrdinal) then Err(OverflowError)
             else if end - start < 0 then Err(ValueError)
             else Ok(Drawn(Date(start + RandInt(0, end - start, tape(at))), at + 1)))
    case Str(_) => Err(ValueError)
    case _ => Err(TypeError)
  }

  /** `isinstance(v, int)` holds for Python's booleans too. */
  function AsInt(v: Value): int
    requires v.Int? || v.Bool?
  {
    if v.Int? then v.i else if v.b then 1 else 0
  }

  /** The integer branch: a number drawn from `prior - |min|` to `prior + max`. */
  function RandomizeInt(prior: Value, params: Value, tape: Tape, at: nat): (r: Result<Drawn>)
    requires prior.Int? || prior.Bool?
    ensures r.Ok? ==> r.value.value.Int? && r.value.next == at + 1
    ensures r.Ok? ==> IntParam(params, "min").Ok? && IntParam(params, "max").Ok?
                      && AsInt(prior) - Abs(IntParam(params, "min").value) <= r.value.value.i
                      && r.value.value.i <= AsInt(prior) + IntParam(params, "max").value
    ensures IntParam(params, "min").Ok? && IntParam(params, "max").Ok? ==>
              (r.Ok? <==> Abs(IntParam(params, "min").value) + IntParam(params, "max").value >= 0)
  {
    match IntParam(params, "min")
    case Err(f) => Err(f)
    case Ok(lo) =>
      match IntParam(params, "max")
      case Err(f) => Err(f)
      case Ok(hi) =>
        var low := AsInt(prior) - Abs(lo);
        var high := AsInt(prior) + hi;
        if low > high then Err(ValueError)
        else Ok(Drawn(Int(RandInt(low, high, tape(at))), at + 1))
  }

  function Abs(n: int): nat
  {
    if n < 0 then -n else n
  }

  /** `random.choices(string.printable, k=n)` joined: one printable character per draw; a negative `k` gives "". */
  function PrintableText(n: int, tape: Tape, at: nat): (r: string)
    ensures |r| == if n < 0 then 0 else n
    ensures forall i :: 0 <= i < |r| ==> r[i] in Printable
  {
    seq(if n < 0 then 0 else n, i requires 0 <= i => Printable[tape(at + i) % |Printable|])
  }

  /** The string branch: printable text as long as the prior value, or as `params["length"]` asks. */
  function RandomizeText(prior: Value, params: Value, tape: Tape, at: nat): (r: Result<Drawn>)
    ensures r.Ok? ==> r.value.value.Str? && TextLength(prior).Ok? && LengthOverride(params).Ok?
    ensures r.Ok? ==>
              var n := match LengthOverride(params).value
                       case Some(k) => k
                       case None => TextLength(prior).value as int;
              |r.value.value.s| == (if n < 0 then 0 else n) && r.value.next == at + |r.value.value.s|
    ensures r.Ok? ==> forall i :: 0 <= i < |r.value.value.s| ==> r.value.value.s[i] in Printable
    ensures r.Ok? <==> TextLength(prior).Ok? && LengthOverride(params).Ok?
  {
    match TextLength(prior)
    case Err(f) => Err(f)
    case Ok(len) =>
      match LengthOverride(params)
      case Err(f) => Err(f)
      case Ok(over) =>
        var n := match over case Some(k) => k case None => len as int;
        var text := PrintableText(n, tape, at);
        Ok(Drawn(Str(text), at + |text|))
  }

  /**
   * `randomize(field_name, old_value, params)`: a field whose name mentions a
   * date is read as a date whatever its value; otherwise floats, then integers
   * and booleans, then everything else as text.
   */
  function Randomize(field: string, prior: Value, params: Value, tape: Tape, at: nat): (r: Result<Drawn>)
    ensures IsDateField(field) ==> r == RandomizeDate(prior, params, tape, at)
    ensures !IsDateField(field) && prior.Float? ==> r == Err(NotModelled)
    ensures !IsDateField(field) && (prior.Int? || prior.Bool?) ==> r == RandomizeInt(prior, params, tape, at)
    ensures !IsDateField(field) && !prior.Float? && !prior.Int? && !prior.Bool? ==> r == RandomizeText(prior, params, tape, at)
    ensures r.Ok? ==> r.value.next >= at
  {
    if IsDateField(field) then RandomizeDate(prior, params, tape, at)
    else if prior.Float? then Err(NotModelled)
    else if prior.Int? || prior.Bool? then RandomizeInt(prior, params, tape, at)
    else RandomizeText(prior, params, tape, at)
  }

  // ------------------------------------------------------------- properties

  /** A randomized date never leaves the window around its seed, whatever the draws. */
  lemma DateStaysInWindow(field: string, seed: Ordinal, lo: int, hi: int, tape: Tape, at: nat)
    requires IsDateField(field)
    requires 1 <= seed - lo && seed + hi <= MaxOrdinal && lo + hi >= 0
    ensures var r := Randomize(field, Date(seed), Obj([("min", Int(lo)), ("max", Int(hi))]), tape, at);
            r.Ok? && r.value.value.Date? && seed - lo <= r.value.value.ordinal <= seed + hi
  {
    var params := Obj([("min", Int(lo)), ("max", Int(hi))]);
    assert Get(params.fields, "min") == Some(Int(lo));
    assert Get(params.fields, "max") == Some(Int(hi));
  }

  /** Every day of the window is reachable: the draw `k` yields the day `seed - lo + k`. */
  lemma {:induction false} EveryDayReachable(seed: Ordinal, lo: int, hi: int, k: nat, at: nat)
    requires 1 <= seed - lo && seed + hi <= MaxOrdinal && k <= lo + hi
    ensures var params := Obj([("min", Int(lo)), ("max", Int(hi))]);
            RandomizeDate(Date(seed), params, (n: nat) => k, at) == Ok(Drawn(Date(seed - lo + k), at + 1))
  {
    var params := Obj([("min", Int(lo)), ("max", Int(hi))]);
    assert Get(params.fields, "min") == Some(Int(lo));
    assert Get(params.fields, "max") == Some(Int(hi));
    assert IntParam(params, "min") == Ok(lo);
    assert IntParam(params, "max") == Ok(hi);
    var width := seed + hi - (seed - lo);
    assert RandInt(0, width, k) == k by {
      assert k % (width + 1) == k;
    }
  }

  /** A window that runs off the calendar raises, it is not clipped. */
  lemma WindowBeyondCalendarOverflows(field: string, hi: int, tape: Tape, at: nat)
    requires IsDateField(field) && hi >= 0
    ensures Randomize(field, Date(MaxOrdinal), Obj([("min", Int(0)), ("max", Int(hi + 1))]), tape, at) == Err(OverflowError)
  {
    var params := Obj([("min", Int(0)), ("max", Int(hi + 1))]);
    assert Get(params.fields, "min") == Some(Int(0));
    assert Get(params.fields, "max") == Some(Int(hi + 1));
  }

  /** Every integer of `prior - |min|` .. `prior + max` is reachable, one draw each. */
  lemma {:induction false} EveryIntReachable(prior: int, lo: int, hi: int, k: nat, at: nat)
    requires k <= Abs(lo) + hi
    ensures var params := Obj([("min", Int(lo)), ("max", Int(hi))]);
            RandomizeInt(Int(prior), params, (n: nat) => k, at) == Ok(Drawn(Int(prior - Abs(lo) + k), at + 1))
  {
    var params := Obj([("min", Int(lo)), ("max", Int(hi))]);
    assert Get(params.fields, "min") == Some(Int(lo));
    assert Get(params.fields, "max") == Some(Int(hi));
    assert k % (prior + hi - (prior - Abs(lo)) + 1) == k;
  }

  /** A string without an integer `length` parameter keeps its length; with one, takes that length. */
  lemma TextLengthKept(field: string, s: string, n: nat, t: string, tape: Tape, at: nat)
    requires !IsDateField(field)
    ensures var r := Randomize(field, Str(s), Obj([]), tape, at);
            r.Ok? && r.value.value.Str? && |r.value.value.s| == |s|
    ensures var r := Randomize(field, Str(s), Obj([("length", Int(n))]), tape, at);
            r.Ok? && r.value.value.Str? && |r.value.value.s| == n
    ensures var r := Randomize(field, Str(s), Obj([("length", Str(t))]), tape, at);
            r.Ok? && r.value.value.Str? && |r.value.value.s| == |s|
  {
    assert Get([("length", Int(n))], "length") == Some(Int(n));
    assert Get([("length", Str(t))], "length") == Some(Str(t));
  }

  /** Any printable text of the requested length can come out of the string branch. */
  lemma {:induction false} EveryPrintableTextReachable(t: string, at: nat)
    requires forall i :: 0 <= i < |t| ==> t[i] in Printable
    ensures exists tape: Tape :: PrintableText(|t|, tape, at) == t
  {
    var tape: Tape := (n: nat) => if at <= n < at + |t| then IndexOf(Printable, t[n - at]) else 0;
    var r := PrintableText(|t|, tape, at);
    forall i | 0 <= i < |t| ensures r[i] == t[i] {
      var j := IndexOf(Printable, t[i]);
      assert tape(at + i) == j;
      assert j % |Printable| == j;
    }
    assert r == t;
  }

  function IndexOf(s: string, c: char): (j: nat)
    requires c in s
    ensures j < |s| && s[j] == c
  {
    if s[0] == c then 0 else 1 + IndexOf(s[1..], c)
  }
}
