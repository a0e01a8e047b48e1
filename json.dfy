/**
 * JSON documents as `json.load` hands them to the cloner: values whose objects
 * are association lists, so that a Python dict keeps its insertion order, and
 * the handful of dict and string operations the core performs on them.
 */
module Json {

  datatype Option<+T> = None | Some(value: T)

  /** The Python exceptions the core can raise; any of them aborts the whole clone. */
  datatype Fault =
    | KeyError(key: string)  // reading or deleting a dict key that is not there
    | TypeError              // an operator applied to a value of the wrong type
    | AttributeError         // `.items()` or `.replace()` on a value that lacks it
    | ValueError             // `random.randint` on an empty range, an unparsable date
    | OverflowError          // date arithmetic that leaves the years 1 to 9999
    | NotModelled            // a path the model does not follow (floating point, the text of a date)

  datatype Result<+T> = Ok(value: T) | Err(fault: Fault)

  /** `date.max.toordinal()`: Python dates are the ordinals 1 (0001-01-01) to this one (9999-12-31). */
  const MaxOrdinal: int := 3652059

  type Ordinal = d: int | 1 <= d <= MaxOrdinal witness 1

  /**
   * A JSON value. `Date` is a JSON string that holds an ISO 8601 calendar date
   * in extended format (YYYY-MM-DD), kept as its day ordinal; `Str` is any other
   * string, one that `date.fromisoformat` refuses.
   */
  datatype Value =
    | Null
    | Bool(b: bool)
    | Int(i: int)
    | Float(x: real)
    | Str(s: string)
    | Date(ordinal: Ordinal)
    | Arr(items: seq<Value>)
    | Obj(fields: seq<(string, Value)>)

  /** The pairs of a dict, in insertion order. */
  type Fields = seq<(string, Value)>

  function Keys(fs: Fields): seq<string>
  {
    if fs == [] then [] else [fs[0].0] + Keys(fs[1..])
  }

  /** `k in d` */
  predicate Has(fs: Fields, k: string)
  {
    k in Keys(fs)
  }

  /** `d.get(k)`: the value stored under `k`. */
  function Get(fs: Fields, k: string): (r: Option<Value>)
    ensures r.Some? <==> Has(fs, k)
    ensures r.Some? ==> (k, r.value) in fs
  {
    if fs == [] then None
    else if fs[0].0 == k then Some(fs[0].1)
    else Get(fs[1..], k)
  }

  /** Keys of a JSON object are distinct, as they are in every dict `json.load` builds. */
  predicate UniqueKeys(fs: Fields)
  {
    forall i, j :: 0 <= i < j < |fs| ==> fs[i].0 != fs[j].0
  }

  /** Replaces the value stored under `k` in place, leaving every other pair where it was. */
  function Overwrite(fs: Fields, k: string, v: Value): (r: Fields)
    ensures |r| == |fs| && Keys(r) == Keys(fs)
    ensures forall i :: 0 <= i < |fs| ==> r[i] == if fs[i].0 == k then (k, v) else fs[i]
  {
    if fs == [] then [] else [if fs[0].0 == k then (k, v) else fs[0]] + Overwrite(fs[1..], k, v)
  }

  /** `d[k] = v`: an existing key keeps its position, a new key is appended at the end. */
  function Set(fs: Fields, k: string, v: Value): (r: Fields)
    ensures Get(r, k) == Some(v)
    ensures forall k' :: k' != k ==> Get(r, k') == Get(fs, k')
    ensures Has(fs, k) ==> Keys(r) == Keys(fs)
    ensures !Has(fs, k) ==> Keys(r) == Keys(fs) + [k]
  {
    if Has(fs, k) then
      OverwriteGet(fs, k, v);
      Overwrite(fs, k, v)
    else
      AppendGet(fs, k, v);
      KeysAppend(fs, (k, v));
      fs + [(k, v)]
  }

  /** `del d[k]` once the caller knows `k in d`, and `if k in d: del d[k]`. */
  function Delete(fs: Fields, k: string): (r: Fields)
    ensures !Has(r, k)
    ensures forall k' :: k' != k ==> Get(r, k') == Get(fs, k')
    ensures forall k' :: Has(r, k') <==> Has(fs, k') && k' != k
    ensures !Has(fs, k) ==> r == fs
  {
    if fs == [] then []
    else if fs[0].0 == k then Delete(fs[1..], k)
    else
      var rest := Delete(fs[1..], k);
      assert ([fs[0]] + rest)[1..] == rest;
      assert Keys([fs[0]] + rest) == [fs[0].0] + Keys(rest);
      assert forall k' :: Has([fs[0]] + rest, k') <==> k' == fs[0].0 || Has(rest, k');
      assert forall k' :: Has(fs, k') <==> k' == fs[0].0 || Has(fs[1..], k');
      [fs[0]] + rest
  }

  lemma {:induction false} OverwriteGet(fs: Fields, k: string, v: Value)
    requires Has(fs, k)
    ensures Get(Overwrite(fs, k, v), k) == Some(v)
    ensures forall k' :: k' != k ==> Get(Overwrite(fs, k, v), k') == Get(fs, k')
  {
    if fs[0].0 != k {
      OverwriteGet(fs[1..], k, v);
    }
    forall k' | k' != k
      ensures Get(Overwrite(fs, k, v), k') == Get(fs, k')
    {
      OverwriteOther(fs, k, v, k');
    }
  }

  lemma {:induction false} OverwriteOther(fs: Fields, k: string, v: Value, k': string)
    requires k' != k
    ensures Get(Overwrite(fs, k, v), k') == Get(fs, k')
  {
    if fs != [] {
      OverwriteOther(fs[1..], k, v, k');
    }
  }

  lemma {:induction false} AppendGet(fs: Fields, k: string, v: Value)
    requires !Has(fs, k)
    ensures Get(fs + [(k, v)], k) == Some(v)
    ensures forall k' :: k' != k ==> Get(fs + [(k, v)], k') == Get(fs, k')
  {
    if fs != [] {
      assert (fs + [(k, v)])[1..] == fs[1..] + [(k, v)];
      AppendGet(fs[1..], k, v);
    }
  }

  lemma {:induction false} KeysAppend(fs: Fields, p: (string, Value))
    ensures Keys(fs + [p]) == Keys(fs) + [p.0]
  {
    if fs != [] {
      assert (fs + [p])[1..] == fs[1..] + [p];
      KeysAppend(fs[1..], p);
    }
  }

  lemma {:induction false} KeysIndex(fs: Fields, i: int)
    requires 0 <= i < |fs|
    ensures |Keys(fs)| == |fs| && Keys(fs)[i] == fs[i].0
  {
    if i > 0 {
      KeysIndex(fs[1..], i - 1);
    } else {
      KeysLength(fs);
    }
  }

  lemma {:induction false} KeysLength(fs: Fields)
    ensures |Keys(fs)| == |fs|
  {
    if fs != [] {
      KeysLength(fs[1..]);
    }
  }

  /**
   * With distinct keys, deleting `k` takes out exactly the one pair that holds
   * it and keeps every other pair in its order.
   */
  lemma {:induction false} DeleteRemovesOnePair(fs: Fields, i: int)
    requires UniqueKeys(fs) && 0 <= i < |fs|
    ensures Delete(fs, fs[i].0) == fs[..i] + fs[i + 1..]
  {
    var k := fs[i].0;
    if i == 0 {
      NotHasTail(fs);
      assert fs[..0] + fs[1..] == fs[1..];
    } else {
      assert UniqueKeys(fs[1..]) by {
        forall a, b | 0 <= a < b < |fs[1..]| ensures fs[1..][a].0 != fs[1..][b].0 {
          assert fs[1..][a] == fs[a + 1] && fs[1..][b] == fs[b + 1];
        }
      }
      DeleteRemovesOnePair(fs[1..], i - 1);
      assert fs[1..][i - 1] == fs[i];
      assert fs[0].0 != k;
      assert [fs[0]] + (fs[1..][..i - 1] + fs[1..][i..]) == fs[..i] + fs[i + 1..];
    }
  }

  lemma {:induction false} NotHasTail(fs: Fields)
    requires UniqueKeys(fs) && fs != []
    ensures !Has(fs[1..], fs[0].0)
  {
    if Has(fs[1..], fs[0].0) {
      var j := HasIndex(fs[1..], fs[0].0);
      assert false;
    }
  }

  /** The first pair holding a key is the one a lookup finds. */
  lemma {:induction false} GetFirst(fs: Fields, i: int)
    requires 0 <= i < |fs| && forall j :: 0 <= j < i ==> fs[j].0 != fs[i].0
    ensures Get(fs, fs[i].0) == Some(fs[i].1)
  {
    if i > 0 {
      GetFirst(fs[1..], i - 1);
    }
  }

  lemma {:induction false} HasIndex(fs: Fields, k: string) returns (j: int)
    requires Has(fs, k)
    ensures 0 <= j < |fs| && fs[j].0 == k
  {
    if fs[0].0 == k {
      j := 0;
    } else {
      var j' := HasIndex(fs[1..], k);
      j := j' + 1;
    }
  }

  // ------------------------------------------------- Python operators on values

  /**
   * `key in v` for a string `key`: a dict looks at its keys, a list at its
   * elements, a string for a substring. The keys the core asks about all hold
   * a letter or a slash, which the text of an ISO date never does.
   */
  function In(v: Value, key: string): (r: Result<bool>)
    ensures v.Obj? ==> r == Ok(Has(v.fields, key))
    ensures r.Err? <==> v.Null? || v.Bool? || v.Int? || v.Float?
    ensures r.Err? ==> r.fault == TypeError
  {
    match v
    case Obj(fs) => Ok(Has(fs, key))
    case Arr(items) => Ok(Str(key) in items)
    case Str(s) => Ok(Contains(s, key))
    case Date(_) => Ok(false)
    case _ => Err(TypeError)
  }

  /** `v[key]` for a string `key`: only a dict holding the key answers. */
  function Subscript(v: Value, key: string): (r: Result<Value>)
    ensures r.Ok? <==> v.Obj? && Has(v.fields, key)
    ensures r.Ok? ==> Get(v.fields, key) == Some(r.value)
    ensures v.Obj? && !Has(v.fields, key) ==> r == Err(KeyError(key))
    ensures !v.Obj? ==> r == Err(TypeError)
  {
    if !v.Obj? then Err(TypeError)
    else match Get(v.fields, key)
      case None => Err(KeyError(key))
      case Some(x) => Ok(x)
  }

  /**
   * `for item in v`: a list gives its elements, a dict its keys, a string its
   * characters; numbers, booleans and None are not iterable.
   */
  function Iterate(v: Value): (r: Result<seq<Value>>)
    ensures v.Arr? ==> r == Ok(v.items)
    ensures v.Obj? ==> r.Ok? && |r.value| == |v.fields|
                       && forall i :: 0 <= i < |v.fields| ==> r.value[i] == Str(v.fields[i].0)
    ensures v.Str? ==> r.Ok? && |r.value| == |v.s|
                       && forall i :: 0 <= i < |v.s| ==> r.value[i] == Str([v.s[i]])
    ensures v.Null? || v.Bool? || v.Int? || v.Float? ==> r == Err(TypeError)
  {
    match v
    case Arr(items) => Ok(items)
    case Obj(fs) => Ok(seq(|fs|, i requires 0 <= i < |fs| => Str(fs[i].0)))
    case Str(s) => Ok(seq(|s|, i requires 0 <= i < |s| => Str([s[i]])))
    case Date(_) => Err(NotModelled)
    case _ => Err(TypeError)
  }

  /**
   * `bool(v)`: None, False, zero and the empty string, list, tuple and dict
   * are false; every other value is true. A tuple is a list here.
   */
  function Truthy(v: Value): (r: bool)
    ensures !r <==> v in {Null, Bool(false), Int(0), Float(0.0), Str(""), Arr([]), Obj([])}
  {
    match v
    case Null => false
    case Bool(b) => b
    case Int(i) => i != 0
    case Float(x) => x != 0.0
    case Str(s) => s != ""
    case Date(_) => true
    case Arr(items) => items != []
    case Obj(fs) => fs != []
  }

  // ---------------------------------------------------------------- strings

  /** `s.startswith(p)` */
  predicate StartsWith(s: string, p: string)
  {
    |p| <= |s| && s[..|p|] == p
  }

  /** `p in s` for two strings */
  predicate Contains(s: string, p: string)
  {
    exists i :: 0 <= i <= |s| - |p| && OccursAt(s, p, i)
  }

  predicate OccursAt(s: string, p: string, i: int)
    requires 0 <= i <= |s| - |p|
  {
    s[i..i + |p|] == p
  }

  function LowerChar(c: char): char
  {
    if 'A' <= c <= 'Z' then (c as int + 32) as char else c
  }

  /** `s.lower()` on ASCII letters; other characters are kept. */
  function Lower(s: string): (r: string)
    ensures |r| == |s|
  {
    seq(|s|, i requires 0 <= i < |s| => LowerChar(s[i]))
  }

  /** `s.replace(pat, rep)`: every non-overlapping occurrence, scanned from the left. */
  function ReplaceAll(s: string, pat: string, rep: string): string
    requires pat != []
    decreases |s|
  {
    if |s| < |pat| then s
    else if s[..|pat|] == pat then rep + ReplaceAll(s[|pat|..], pat, rep)
    else [s[0]] + ReplaceAll(s[1..], pat, rep)
  }

  /** `s.split("/")[0]`: the text before the first slash. */
  function BeforeSlash(s: string): string
  {
    if s == [] || s[0] == '/' then [] else [s[0]] + BeforeSlash(s[1..])
  }

  lemma {:induction false} BeforeSlashOf(p: string, rest: string)
    requires '/' !in p
    ensures BeforeSlash(p + "/" + rest) == p
  {
    if p != [] {
      assert (p + "/" + rest)[1..] == p[1..] + "/" + rest;
      BeforeSlashOf(p[1..], rest);
    } else {
      assert (p + "/" + rest)[0] == '/';
    }
  }

  // ---------------------------------------------------------------- dates

  /** Day lengths of a common year's months, January first. */
  const MonthLengths: seq<nat> := [31, 28, 31, 30, 31, 30, 31, 31, 30, 31, 30, 31]

  /**
   * Month and day of the `n`-th day (from 0) of a year, looking from month `m`
   * on; what is left past December stays in December.
   */
  function MonthDay(n: nat, leap: bool, m: nat): (r: (nat, nat))
    requires 1 <= m <= 12
    ensures m <= r.0 <= 12 && 1 <= r.1
    decreases 12 - m
  {
    var len := MonthLengths[m - 1] + if m == 2 && leap then 1 else 0;
    if n < len || m == 12 then (m, n + 1) else MonthDay(n - len, leap, m + 1)
  }

  /**
   * `date.fromordinal(d)`: year, month and day of the proleptic Gregorian day
   * `d`, by the 400-, 100-, 4- and 1-year cycles.
   */
  function YearMonthDay(d: Ordinal): (r: (nat, nat, nat))
    ensures 1 <= r.0 && 1 <= r.1 <= 12 && 1 <= r.2
  {
    var n := d - 1;
    var n400 := n / 146097;
    var n100 := n % 146097 / 36524;
    var n4 := n % 146097 % 36524 / 1461;
    var n1 := n % 146097 % 36524 % 1461 / 365;
    var day := n % 146097 % 36524 % 1461 % 365;
    var year := n400 * 400 + 1 + n100 * 100 + n4 * 4 + n1;
    if n1 == 4 || n100 == 4 then (year - 1, 12, 31)
    else
      var md := MonthDay(day, n1 == 3 && (n4 != 24 || n100 == 3), 1);
      (year, md.0, md.1)
  }

  /** The decimal digits of `n`, without leading zeros. */
  function Digits(n: nat): (r: string)
    ensures 1 <= |r|
  {
    if n < 10 then [('0' as int + n) as char] else Digits(n / 10) + [('0' as int + n % 10) as char]
  }

  /** `s` with zeros in front up to `width` characters. */
  function ZeroPad(s: string, width: nat): (r: string)
    ensures |r| == if |s| < width then width else |s|
    decreases width - |s|
  {
    if |s| < width then ZeroPad("0" + s, width) else s
  }

  /** `date.isoformat()`: the `YYYY-MM-DD` text of the day. */
  function IsoText(d: Ordinal): (r: string)
  {
    var ymd := YearMonthDay(d);
    ZeroPad(Digits(ymd.0), 4) + "-" + ZeroPad(Digits(ymd.1), 2) + "-" + ZeroPad(Digits(ymd.2), 2)
  }

  /** The text of a string value; a date value stands for its ISO text. */
  function Text(v: Value): (r: Option<string>)
    ensures v.Str? ==> r == Some(v.s)
    ensures v.Date? ==> r == Some(IsoText(v.ordinal))
    ensures r.Some? <==> v.Str? || v.Date?
  {
    match v
    case Str(s) => Some(s)
    case Date(d) => Some(IsoText(d))
    case _ => None
  }

  /** The first day of 2020 is day 737425. */
  lemma NewYear2020()
    ensures IsoText(737425) == "2020-01-01"
  {
    NewYear2020Date();
    NewYear2020Digits();
  }

  lemma NewYear2020Date()
    ensures YearMonthDay(737425) == (2020, 1, 1)
  {
    var n := 737424;
    assert n / 146097 == 5 && n % 146097 == 6939;
    assert 6939 / 36524 == 0 && 6939 % 36524 == 6939;
    assert 6939 / 1461 == 4 && 6939 % 1461 == 1095;
    assert 1095 / 365 == 3 && 1095 % 365 == 0;
    assert MonthDay(0, true, 1) == (1, 1);
  }

  lemma NewYear2020Digits()
    ensures ZeroPad(Digits(2020), 4) == "2020" && ZeroPad(Digits(1), 2) == "01"
  {
    assert Digits(20) == "20";
    assert Digits(202) == "202";
    assert Digits(2020) == "2020";
    assert ZeroPad("1", 2) == "01";
  }
}
