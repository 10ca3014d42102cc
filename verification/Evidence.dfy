/** Canonical evidence of strategy observations (app/observability/strategy_observations.py).
    Mappings are string-keyed and keep their insertion order; paths are sequences of steps instead of
    dotted text; 15-digit rounding is a parameter. */
module Evidence {
  import opened Common

  datatype Value =
    | Map(items: seq<Item>)
    | List(elems: seq<Value>)
    | Tuple(elems: seq<Value>)
    | Moment(instant: int)
    | Iso(instant: int)
    | Number(value: real)
    | NaN | PosInf | NegInf
    | Str(text: string)
    | Int(n: int)
    | Bool(b: bool)
    | Null
    | Other(typeName: string)

  datatype Item = Item(key: string, value: Value)

  datatype Step = Key(key: string) | Index(index: nat)

  datatype Warning = Warning(path: seq<Step>, original: Value)

  type Rounding = real -> real

  const EXCLUDED := "[excluded]"
  const SENSITIVE := ["token", "secret", "password", "chat_id", "db_url", "database_url", "logging"]

  // ---------- Keys ----------

  /** Lower case as far as the sensitive parts can tell: the Kelvin sign is the one character outside
      ASCII whose lower case spells a letter of theirs in place. */
  function LowerChar(c: char): char {
    if 'A' <= c <= 'Z' then c + 32 as char else if c == '\U{212A}' then 'k' else c
  }

  function Lower(s: string): string { seq(|s|, i requires 0 <= i < |s| => LowerChar(s[i])) }

  predicate Contains(s: string, part: string) { exists i | 0 <= i <= |s| :: part <= s[i..] }

  predicate Sensitive(key: string) { exists part | part in SENSITIVE :: Contains(Lower(key), part) }

  predicate Less(a: string, b: string) {
    b != [] && (a == [] || a[0] < b[0] || (a[0] == b[0] && Less(a[1..], b[1..])))
  }

  lemma {:induction false} LessIsTotal(a: string, b: string)
    ensures Less(a, b) || a == b || Less(b, a)
    ensures !(Less(a, b) && Less(b, a)) && !Less(a, a)
  {
    if a != [] && b != [] && a[0] == b[0] {
      LessIsTotal(a[1..], b[1..]);
      assert a == [a[0]] + a[1..] && b == [b[0]] + b[1..];
    }
    if a != [] {
      LessIsTotal(a[1..], a[1..]);
    }
  }

  lemma {:induction false} LessIsTransitive(a: string, b: string, c: string)
    requires Less(a, b) && Less(b, c)
    ensures Less(a, c)
  {
    if a != [] && a[0] == b[0] && b[0] == c[0] {
      LessIsTransitive(a[1..], b[1..], c[1..]);
    }
  }

  // ---------- Sorting items ----------

  predicate DistinctKeys(items: seq<Item>) { forall i, j | 0 <= i < j < |items| :: items[i].key != items[j].key }

  predicate Ascending(items: seq<Item>) { forall i, j | 0 <= i < j < |items| :: !Less(items[j].key, items[i].key) }

  lemma AscendingSnoc(items: seq<Item>, x: Item)
    requires Ascending(items) && forall y | y in items :: !Less(x.key, y.key)
    ensures Ascending(items + [x])
  {
  }

  /** Inserts after every item whose key is not greater. */
  function Insert(items: seq<Item>, x: Item): (s: seq<Item>)
    ensures |s| == |items| + 1
  {
    if items == [] then [x]
    else
      var n := |items| - 1;
      if !Less(x.key, items[n].key) then items + [x] else Insert(items[..n], x) + [items[n]]
  }

  function Sort(items: seq<Item>): (s: seq<Item>)
    ensures |s| == |items|
  {
    if items == [] then [] else Insert(Sort(items[..|items| - 1]), items[|items| - 1])
  }

  lemma {:induction false} InsertHas(items: seq<Item>, x: Item)
    ensures forall y :: y in Insert(items, x) <==> y in items || y == x
  {
    if items != [] {
      var n := |items| - 1;
      assert items == items[..n] + [items[n]];
      InsertHas(items[..n], x);
    }
  }

  lemma {:induction false} InsertAscends(items: seq<Item>, x: Item)
    requires Ascending(items)
    ensures Ascending(Insert(items, x))
  {
    if items != [] {
      var n := |items| - 1;
      if !Less(x.key, items[n].key) {
        NotLessThanAny(items, x);
        AscendingSnoc(items, x);
      } else {
        InsertAscends(items[..n], x);
        InsertHas(items[..n], x);
        LessIsTotal(x.key, items[n].key);
        AscendingSnoc(Insert(items[..n], x), items[n]);
      }
    }
  }

  /** Sorting keeps the items and puts them in key order. */
  lemma {:induction false} SortFacts(items: seq<Item>)
    ensures Ascending(Sort(items)) && forall y :: y in Sort(items) <==> y in items
  {
    if items != [] {
      var n := |items| - 1;
      assert items == items[..n] + [items[n]];
      SortFacts(items[..n]);
      InsertAscends(Sort(items[..n]), items[n]);
      InsertHas(Sort(items[..n]), items[n]);
    }
  }

  lemma NotLessThanAny(items: seq<Item>, x: Item)
    requires Ascending(items) && items != [] && !Less(x.key, items[|items| - 1].key)
    ensures forall y | y in items :: !Less(x.key, y.key)
  {
    forall y | y in items ensures !Less(x.key, y.key) {
      var last := items[|items| - 1];
      if Less(x.key, y.key) {
        LessIsTotal(y.key, last.key);
        LessIsTotal(x.key, last.key);
        if Less(y.key, last.key) {
          LessIsTransitive(x.key, y.key, last.key);
        }
      }
    }
  }

  lemma {:induction false} SortOfSorted(items: seq<Item>)
    requires Ascending(items)
    ensures Sort(items) == items
  {
    if items != [] {
      var n := |items| - 1;
      SortOfSorted(items[..n]);
      assert items == items[..n] + [items[n]];
    }
  }

  lemma {:induction false} SortKeepsDistinct(items: seq<Item>)
    requires DistinctKeys(items)
    ensures DistinctKeys(Sort(items))
  {
    if items != [] {
      var n := |items| - 1;
      SortKeepsDistinct(items[..n]);
      SortFacts(items[..n]);
      InsertKeepsDistinct(Sort(items[..n]), items[n]);
    }
  }

  lemma {:induction false} InsertKeepsDistinct(items: seq<Item>, x: Item)
    requires DistinctKeys(items) && forall y | y in items :: y.key != x.key
    ensures DistinctKeys(Insert(items, x))
  {
    if items != [] {
      var n := |items| - 1;
      if Less(x.key, items[n].key) {
        InsertKeepsDistinct(items[..n], x);
        InsertHas(items[..n], x);
        var s := Insert(items[..n], x);
        forall i | 0 <= i < |s| ensures s[i].key != items[n].key {
          assert s[i] in s;
        }
      }
    }
  }

  // ---------- Nested values ----------

  function Width(v: Value): nat {
    match v
    case Map(items) => |items|
    case List(elems) => |elems|
    case Tuple(elems) => |elems|
    case _ => 0
  }

  /** The children of a value, those of a mapping in key order. */
  function Child(v: Value, i: nat): (c: Value)
    requires i < Width(v)
    ensures c < v
  {
    match v
    case Map(items) =>
      SortFacts(items);
      assert Sort(items)[i] in items;
      Sort(items)[i].value
    case List(elems) => elems[i]
    case Tuple(elems) => elems[i]
  }

  function StepTo(v: Value, i: nat): Step
    requires i < Width(v)
  {
    if v.Map? then Key(Sort(v.items)[i].key) else Index(i)
  }

  /** A child stored under a sensitive key. */
  predicate Hidden(step: Step) { step.Key? && Sensitive(step.key) }

  predicate NonFinite(v: Value) { v.NaN? || v.PosInf? || v.NegInf? }

  /** No mapping has a key twice. */
  predicate WellFormed(v: Value)
    decreases v
  {
    (v.Map? ==> DistinctKeys(v.items)) && forall i | 0 <= i < Width(v) :: WellFormed(Child(v, i))
  }

  /** No value of an unsupported type outside sensitive keys. */
  predicate Supported(v: Value)
    decreases v, 2
  {
    !v.Other? && SupportedUpTo(v, Width(v))
  }

  predicate SupportedUpTo(v: Value, n: nat)
    requires n <= Width(v)
    decreases v, 1, n
  {
    n == 0 || (SupportedUpTo(v, n - 1) && SupportedChild(v, n - 1))
  }

  predicate SupportedChild(v: Value, i: nat)
    requires i < Width(v)
    decreases v, 0
  {
    Hidden(StepTo(v, i)) || Supported(Child(v, i))
  }

  lemma {:induction false} UnsupportedChild(v: Value, i: nat, n: nat)
    requires i < n <= Width(v) && !SupportedChild(v, i)
    ensures !SupportedUpTo(v, n)
  {
    if i < n - 1 {
      UnsupportedChild(v, i, n - 1);
    }
  }

  // ---------- Canonical values and their warnings ----------

  function Clean(v: Value, round: Rounding): Value
    decreases v, 2
  {
    match v
    case Map(items) => Map(CleanItems(v, |items|, round))
    case List(elems) => List(CleanElements(v, |elems|, round))
    case Tuple(elems) => List(CleanElements(v, |elems|, round))
    case Moment(instant) => Iso(instant)
    case Number(x) => Number(round(x))
    case _ => if NonFinite(v) then Null else v
  }

  /** The first `n` children, cleaned and in order. */
  function CleanItems(v: Value, n: nat, round: Rounding): (r: seq<Item>)
    requires v.Map? && n <= Width(v)
    ensures |r| == n && forall i | 0 <= i < n :: r[i] == Item(StepTo(v, i).key, CleanChild(v, i, round))
    decreases v, 1, n
  {
    if n == 0 then [] else CleanItems(v, n - 1, round) + [Item(StepTo(v, n - 1).key, CleanChild(v, n - 1, round))]
  }

  function CleanElements(v: Value, n: nat, round: Rounding): (r: seq<Value>)
    requires n <= Width(v)
    ensures |r| == n && forall i | 0 <= i < n :: r[i] == CleanChild(v, i, round)
    decreases v, 1, n
  {
    if n == 0 then [] else CleanElements(v, n - 1, round) + [CleanChild(v, n - 1, round)]
  }

  function CleanChild(v: Value, i: nat, round: Rounding): Value
    requires i < Width(v)
    decreases v, 0
  {
    if Hidden(StepTo(v, i)) then Str(EXCLUDED) else Clean(Child(v, i), round)
  }

  function Warnings(v: Value, path: seq<Step>): seq<Warning>
    decreases v, Width(v) + 1
  {
    if NonFinite(v) then [Warning(path, v)] else WarningsUpTo(v, path, Width(v))
  }

  /** The warnings of the first `n` children. */
  function WarningsUpTo(v: Value, path: seq<Step>, n: nat): seq<Warning>
    requires n <= Width(v)
    decreases v, n
  {
    if n == 0 then [] else WarningsUpTo(v, path, n - 1) + ChildWarnings(v, path, n - 1)
  }

  function ChildWarnings(v: Value, path: seq<Step>, i: nat): seq<Warning>
    requires i < Width(v)
    decreases v, 0
  {
    if Hidden(StepTo(v, i)) then [] else Warnings(Child(v, i), path + [StepTo(v, i)])
  }

  /** Normalizes one value, collecting the paths it had to empty; an unsupported type is an error. */
  method Canonicalize(v: Value, path: seq<Step>, round: Rounding) returns (r: Result<(Value, seq<Warning>), string>)
    ensures r.Ok? <==> Supported(v)
    ensures r.Ok? ==> r.value == (Clean(v, round), Warnings(v, path))
    decreases v, 2
  {
    if NonFinite(v) {
      return Ok((Null, [Warning(path, v)]));
    }
    match v {
      case Map(items) => r := CanonicalizeMapping(v, path, round);
      case List(elems) => r := CanonicalizeElements(v, path, round);
      case Tuple(elems) => r := CanonicalizeElements(v, path, round);
      case Moment(instant) => r := Ok((Iso(instant), []));
      case Number(x) => r := Ok((Number(round(x)), []));
      case Other(typeName) => r := Err(typeName);
      case _ => r := Ok((v, []));
    }
  }

  /** A child under a sensitive key is replaced, any other one normalized. */
  method CanonicalizeChild(v: Value, i: nat, path: seq<Step>, round: Rounding)
    returns (r: Result<(Value, seq<Warning>), string>)
    requires i < Width(v)
    ensures r.Ok? <==> SupportedChild(v, i)
    ensures r.Ok? ==> r.value == (CleanChild(v, i, round), ChildWarnings(v, path, i))
    decreases v, 0
  {
    var step := StepTo(v, i);
    if Hidden(step) {
      return Ok((Str(EXCLUDED), []));
    }
    r := Canonicalize(Child(v, i), path + [step], round);
  }

  /** The mapping case: the items in key order. */
  method CanonicalizeMapping(v: Value, path: seq<Step>, round: Rounding)
    returns (r: Result<(Value, seq<Warning>), string>)
    requires v.Map?
    ensures r.Ok? <==> Supported(v)
    ensures r.Ok? ==> r.value == (Clean(v, round), Warnings(v, path))
    decreases v, 1
  {
    var result, warnings := [], [];
    for i := 0 to Width(v)
      invariant result == CleanItems(v, i, round) && warnings == WarningsUpTo(v, path, i)
      invariant SupportedUpTo(v, i)
    {
      var normalized := CanonicalizeChild(v, i, path, round);
      if normalized.Err? {
        UnsupportedChild(v, i, Width(v));
        return Err(normalized.error);
      }
      result, warnings := result + [Item(StepTo(v, i).key, normalized.value.0)], warnings + normalized.value.1;
    }
    r := Ok((Map(result), warnings));
  }

  /** The list and tuple case. */
  method CanonicalizeElements(v: Value, path: seq<Step>, round: Rounding)
    returns (r: Result<(Value, seq<Warning>), string>)
    requires v.List? || v.Tuple?
    ensures r.Ok? <==> Supported(v)
    ensures r.Ok? ==> r.value == (Clean(v, round), Warnings(v, path))
    decreases v, 1
  {
    var result, warnings := [], [];
    for i := 0 to Width(v)
      invariant result == CleanElements(v, i, round) && warnings == WarningsUpTo(v, path, i)
      invariant SupportedUpTo(v, i)
    {
      var normalized := CanonicalizeChild(v, i, path, round);
      if normalized.Err? {
        UnsupportedChild(v, i, Width(v));
        return Err(normalized.error);
      }
      result, warnings := result + [normalized.value.0], warnings + normalized.value.1;
    }
    r := Ok((List(result), warnings));
  }

  // ---------- Reading a value by path ----------

  function ChildAt(v: Value, step: Step): (i: Option<nat>)
    ensures i.Some? ==> i.value < Width(v) && StepTo(v, i.value) == step
    ensures i == None ==> forall j | 0 <= j < Width(v) :: StepTo(v, j) != step
  {
    ChildFrom(v, step, 0)
  }

  function ChildFrom(v: Value, step: Step, from: nat): (i: Option<nat>)
    requires from <= Width(v)
    ensures i.Some? ==> i.value < Width(v) && StepTo(v, i.value) == step
    ensures i == None ==> forall j | from <= j < Width(v) :: StepTo(v, j) != step
    decreases Width(v) - from
  {
    if from == Width(v) then None else if StepTo(v, from) == step then Some(from) else ChildFrom(v, step, from + 1)
  }

  /** What an observer finds at a path; nothing is visible below a sensitive key but its placeholder. */
  function At(v: Value, path: seq<Step>): Option<Value>
    decreases v
  {
    if path == [] then Some(v)
    else
      match ChildAt(v, path[0])
      case None => None
      case Some(i) =>
        if Hidden(path[0]) then (if |path| == 1 then Some(Str(EXCLUDED)) else None) else At(Child(v, i), path[1..])
  }

  lemma StepsAreDistinct(v: Value, i: nat, j: nat)
    requires WellFormed(v) && i < Width(v) && j < Width(v) && StepTo(v, i) == StepTo(v, j)
    ensures i == j
  {
    if v.Map? {
      SortKeepsDistinct(v.items);
    }
  }

  lemma ChildAtStep(v: Value, i: nat)
    requires WellFormed(v) && i < Width(v)
    ensures ChildAt(v, StepTo(v, i)) == Some(i)
  {
    StepsAreDistinct(v, i, ChildAt(v, StepTo(v, i)).value);
  }

  // ---------- The canonical value ----------

  lemma SortedSteps(v: Value, c: Value)
    requires v.Map? && c.Map? && |c.items| == |v.items|
    requires forall i | 0 <= i < |v.items| :: c.items[i].key == Sort(v.items)[i].key
    ensures Ascending(c.items) && Sort(c.items) == c.items
  {
    SortFacts(v.items);
    SortOfSorted(c.items);
  }

  lemma CleanWidth(v: Value, round: Rounding)
    ensures Width(Clean(v, round)) == Width(v)
  {
  }

  /** The canonical value has the same children under the same steps, each one cleaned. */
  lemma CleanChildren(v: Value, round: Rounding)
    ensures Width(Clean(v, round)) == Width(v)
    ensures forall i | 0 <= i < Width(v) ::
              StepTo(Clean(v, round), i) == StepTo(v, i) && Child(Clean(v, round), i) == CleanChild(v, i, round)
  {
    CleanWidth(v, round);
    forall i: nat | i < Width(v)
      ensures StepTo(Clean(v, round), i) == StepTo(v, i) && Child(Clean(v, round), i) == CleanChild(v, i, round)
    {
      CleanChildHere(v, i, round);
    }
  }

  lemma CleanChildHere(v: Value, i: nat, round: Rounding)
    requires i < Width(v)
    ensures Width(Clean(v, round)) == Width(v)
    ensures StepTo(Clean(v, round), i) == StepTo(v, i) && Child(Clean(v, round), i) == CleanChild(v, i, round)
  {
    if v.Map? {
      CleanItemAt(v, i, round);
    } else {
      CleanElementAt(v, i, round);
    }
  }

  lemma CleanItemAt(v: Value, i: nat, round: Rounding)
    requires v.Map? && i < Width(v)
    ensures var c := Map(CleanItems(v, Width(v), round));
            StepTo(c, i) == StepTo(v, i) && Child(c, i) == CleanChild(v, i, round)
  {
    SortedSteps(v, Map(CleanItems(v, Width(v), round)));
  }

  lemma CleanElementAt(v: Value, i: nat, round: Rounding)
    requires !v.Map? && i < Width(v)
    ensures var c := List(CleanElements(v, Width(v), round));
            StepTo(c, i) == StepTo(v, i) && Child(c, i) == CleanChild(v, i, round)
  {
  }

  /** Canonicalizing again changes nothing and warns of nothing. */
  lemma {:induction false} CleanIsIdempotent(v: Value, path: seq<Step>, round: Rounding)
    requires forall x :: round(round(x)) == round(x)
    ensures Clean(Clean(v, round), round) == Clean(v, round)
    ensures Warnings(Clean(v, round), path) == []
    decreases v
  {
    var c := Clean(v, round);
    CleanChildren(v, round);
    forall i | 0 <= i < Width(v) ensures CleanChild(c, i, round) == Child(c, i) && ChildWarnings(c, path, i) == [] {
      if !Hidden(StepTo(v, i)) {
        CleanIsIdempotent(Child(v, i), path + [StepTo(v, i)], round);
      }
    }
    NoChildWarns(c, path, Width(c));
    if v.Map? {
      SortedSteps(v, c);
      assert Clean(c, round).items == c.items;
    } else if v.List? || v.Tuple? {
      assert Clean(c, round).elems == c.elems;
    }
  }

  lemma {:induction false} NoChildWarns(v: Value, path: seq<Step>, n: nat)
    requires n <= Width(v) && forall i | 0 <= i < n :: ChildWarnings(v, path, i) == []
    ensures WarningsUpTo(v, path, n) == []
  {
    if n > 0 {
      NoChildWarns(v, path, n - 1);
    }
  }

  lemma {:induction false} SameChildAt(v: Value, c: Value, step: Step, from: nat)
    requires Width(c) == Width(v) && from <= Width(v) && forall i | 0 <= i < Width(v) :: StepTo(c, i) == StepTo(v, i)
    ensures ChildFrom(c, step, from) == ChildFrom(v, step, from)
    decreases Width(v) - from
  {
    if from < Width(v) && StepTo(v, from) != step {
      SameChildAt(v, c, step, from + 1);
    }
  }

  /** Every path leads to the canonical form of what it led to, and to nothing new. */
  lemma {:induction false} CleanKeepsPaths(v: Value, path: seq<Step>, round: Rounding)
    ensures At(Clean(v, round), path) == if At(v, path) == None then None else Some(Clean(At(v, path).value, round))
    decreases v
  {
    if path != [] {
      CleanKeepsChildAt(v, path[0], round);
      var child := ChildAt(v, path[0]);
      if child.Some? && !Hidden(path[0]) {
        CleanChildHere(v, child.value, round);
        CleanKeepsPaths(Child(v, child.value), path[1..], round);
      }
    }
  }

  lemma CleanKeepsChildAt(v: Value, step: Step, round: Rounding)
    ensures ChildAt(Clean(v, round), step) == ChildAt(v, step)
  {
    CleanChildren(v, round);
    SameChildAt(v, Clean(v, round), step, 0);
  }

  // ---------- The warnings ----------

  lemma {:induction false} WarningsExtend(v: Value, path: seq<Step>, w: Warning)
    requires w in Warnings(v, path)
    ensures path <= w.path
    decreases v
  {
    if !NonFinite(v) {
      var i := WarnedBelow(v, path, Width(v), w);
      WarningsExtend(Child(v, i), path + [StepTo(v, i)], w);
    }
  }

  lemma {:induction false} WarnedBelow(v: Value, path: seq<Step>, n: nat, w: Warning) returns (i: nat)
    requires n <= Width(v) && w in WarningsUpTo(v, path, n)
    ensures i < n && w in ChildWarnings(v, path, i)
  {
    if w in ChildWarnings(v, path, n - 1) {
      i := n - 1;
    } else {
      i := WarnedBelow(v, path, n - 1, w);
    }
  }

  lemma {:induction false} ChildrenWarn(v: Value, path: seq<Step>, n: nat, i: nat)
    requires i < n <= Width(v)
    ensures forall w | w in ChildWarnings(v, path, i) :: w in WarningsUpTo(v, path, n)
  {
    if i < n - 1 {
      ChildrenWarn(v, path, n - 1, i);
    }
  }

  /** There is a warning at a path exactly when the path leads to a non-finite number. */
  lemma {:induction false} WarnsExactly(v: Value, base: seq<Step>, path: seq<Step>, x: Value)
    requires WellFormed(v)
    ensures Warning(base + path, x) in Warnings(v, base) <==> At(v, path) == Some(x) && NonFinite(x)
    decreases v, 2
  {
    var w := Warning(base + path, x);
    if path == [] {
      assert base + path == base;
      if w in Warnings(v, base) && !NonFinite(v) {
        var i := WarnedBelow(v, base, Width(v), w);
        WarningsExtend(Child(v, i), base + [StepTo(v, i)], w);
      }
    } else {
      if w in Warnings(v, base) {
        WarningLeadsThere(v, base, path, x);
      }
      if At(v, path) == Some(x) && NonFinite(x) {
        var i := ChildAt(v, path[0]).value;
        assert base + path == base + [StepTo(v, i)] + path[1..];
        WarnsExactly(Child(v, i), base + [StepTo(v, i)], path[1..], x);
        ChildrenWarn(v, base, Width(v), i);
      }
    }
  }

  lemma WarningLeadsThere(v: Value, base: seq<Step>, path: seq<Step>, x: Value)
    requires WellFormed(v) && path != [] && Warning(base + path, x) in Warnings(v, base)
    ensures At(v, path) == Some(x) && NonFinite(x)
    decreases v, 1
  {
    var w := Warning(base + path, x);
    assert w.path != base;
    var i := WarnedBelow(v, base, Width(v), w);
    StepOfWarning(v, base, i, w);
    BelowLeadsThere(v, base, path, x, i);
  }

  lemma StepOfWarning(v: Value, base: seq<Step>, i: nat, w: Warning)
    requires i < Width(v) && w in ChildWarnings(v, base, i)
    ensures |w.path| > |base| && w.path[|base|] == StepTo(v, i)
  {
    WarningsExtend(Child(v, i), base + [StepTo(v, i)], w);
  }

  lemma BelowLeadsThere(v: Value, base: seq<Step>, path: seq<Step>, x: Value, i: nat)
    requires WellFormed(v) && i < Width(v) && path != [] && path[0] == StepTo(v, i)
    requires Warning(base + path, x) in ChildWarnings(v, base, i)
    ensures At(v, path) == Some(x) && NonFinite(x)
    decreases v, 0
  {
    assert base + path == base + [path[0]] + path[1..];
    ChildAtStep(v, i);
    WarnsExactly(Child(v, i), base + [path[0]], path[1..], x);
  }

  predicate NoTwice(warnings: seq<Warning>) {
    forall i, j | 0 <= i < j < |warnings| :: warnings[i].path != warnings[j].path
  }

  /** No path is warned of twice. */
  lemma {:induction false} WarnsOnce(v: Value, base: seq<Step>)
    requires WellFormed(v)
    ensures NoTwice(Warnings(v, base))
    decreases v, 2
  {
    if !NonFinite(v) {
      WarnsOnceUpTo(v, base, Width(v));
    }
  }

  lemma {:induction false} WarnsOnceUpTo(v: Value, base: seq<Step>, n: nat)
    requires WellFormed(v) && n <= Width(v)
    ensures NoTwice(WarningsUpTo(v, base, n))
    decreases v, 1, n
  {
    if n > 0 {
      WarnsOnceUpTo(v, base, n - 1);
      ChildWarnsOnce(v, base, n - 1);
      var before, now := WarningsUpTo(v, base, n - 1), ChildWarnings(v, base, n - 1);
      forall a, b | a in before && b in now ensures a.path != b.path {
        ChildrenWarnApart(v, base, n - 1, a, b);
      }
      Joined(before, now);
    }
  }

  lemma ChildWarnsOnce(v: Value, base: seq<Step>, i: nat)
    requires WellFormed(v) && i < Width(v)
    ensures NoTwice(ChildWarnings(v, base, i))
    decreases v, 0
  {
    if !Hidden(StepTo(v, i)) {
      WarnsOnce(Child(v, i), base + [StepTo(v, i)]);
    }
  }

  lemma ChildrenWarnApart(v: Value, base: seq<Step>, n: nat, a: Warning, b: Warning)
    requires WellFormed(v) && n < Width(v) && a in WarningsUpTo(v, base, n) && b in ChildWarnings(v, base, n)
    ensures a.path != b.path
  {
    var i := WarnedBelow(v, base, n, a);
    StepOfWarning(v, base, i, a);
    StepOfWarning(v, base, n, b);
    if StepTo(v, i) == StepTo(v, n) {
      StepsAreDistinct(v, i, n);
    }
  }

  lemma Joined(a: seq<Warning>, b: seq<Warning>)
    requires NoTwice(a) && NoTwice(b) && forall x, y | x in a && y in b :: x.path != y.path
    ensures NoTwice(a + b)
  {
    forall i, j | 0 <= i < j < |a + b| ensures (a + b)[i].path != (a + b)[j].path {
      if i < |a| <= j {
        assert a[i] in a && b[j - |a|] in b;
      }
    }
  }

  /** The warnings of a whole snapshot are exactly its visible non-finite numbers. */
  lemma SnapshotWarnsExactly(v: Value, path: seq<Step>, x: Value)
    requires WellFormed(v)
    ensures Warning(path, x) in Warnings(v, []) <==> At(v, path) == Some(x) && NonFinite(x)
  {
    assert [] + path == path;
    WarnsExactly(v, [], path, x);
  }

  /** Every path warned of is empty in the canonical value. */
  lemma WarnedIsNull(v: Value, w: Warning, round: Rounding)
    requires WellFormed(v) && w in Warnings(v, [])
    ensures At(Clean(v, round), w.path) == Some(Null)
  {
    SnapshotWarnsExactly(v, w.path, w.original);
    CleanKeepsPaths(v, w.path, round);
    NonFiniteIsNull(w.original, round);
  }

  lemma NonFiniteIsNull(v: Value, round: Rounding)
    requires NonFinite(v)
    ensures Clean(v, round) == Null
  {
  }

  /** No path of the canonical value leads to a non-finite number. */
  lemma CleanIsFinite(v: Value, path: seq<Step>, round: Rounding)
    ensures At(Clean(v, round), path).Some? ==> !NonFinite(At(Clean(v, round), path).value)
  {
    CleanKeepsPaths(v, path, round);
    if At(v, path).Some? {
      NeverNonFinite(At(v, path).value, round);
    }
  }

  lemma NeverNonFinite(v: Value, round: Rounding)
    ensures !NonFinite(Clean(v, round))
  {
  }

  // ---------- Mapping order ----------

  /** Equal up to the order of mappings, at every depth. */
  predicate SameUpToOrder(v: Value, w: Value)
    decreases v
  {
    match v
    case Map(items) =>
      w.Map? && |w.items| == |items| &&
      forall i | 0 <= i < |items| :: exists j | 0 <= j < |w.items| ::
        items[i].key == w.items[j].key && SameUpToOrder(items[i].value, w.items[j].value)
    case List(elems) => w.List? && |w.elems| == |elems|
        && forall i | 0 <= i < |elems| :: SameUpToOrder(elems[i], w.elems[i])
    case Tuple(elems) => w.Tuple? && |w.elems| == |elems|
        && forall i | 0 <= i < |elems| :: SameUpToOrder(elems[i], w.elems[i])
    case _ => v == w
  }

  function KeysOf(items: seq<Item>): (keys: set<string>) { set item | item in items :: item.key }

  lemma {:induction false} KeyCount(items: seq<Item>)
    requires DistinctKeys(items)
    ensures |KeysOf(items)| == |items|
  {
    if items != [] {
      var n := |items| - 1;
      KeyCount(items[..n]);
      assert items == items[..n] + [items[n]];
      assert KeysOf(items) == KeysOf(items[..n]) + {items[n].key};
    }
  }

  /** Sorted items with the same keys have them in the same places. */
  lemma {:induction false} SameKeysSamePlaces(a: seq<Item>, b: seq<Item>)
    requires Ascending(a) && Ascending(b) && DistinctKeys(a) && DistinctKeys(b) && KeysOf(a) == KeysOf(b) && |a| == |b|
    ensures forall i | 0 <= i < |a| :: a[i].key == b[i].key
  {
    if a != [] {
      var n := |a| - 1;
      LastIsGreatest(a, b);
      LastIsGreatest(b, a);
      LessIsTotal(a[n].key, b[n].key);
      assert a[n].key == b[n].key;
      WithoutLast(a);
      WithoutLast(b);
      SameKeysSamePlaces(a[..n], b[..n]);
    }
  }

  lemma LastIsGreatest(a: seq<Item>, b: seq<Item>)
    requires Ascending(a) && Ascending(b) && KeysOf(a) == KeysOf(b) && a != [] && b != []
    ensures !Less(a[|a| - 1].key, b[|b| - 1].key)
  {
    var key := b[|b| - 1].key;
    assert key in KeysOf(b);
    var item :| item in a && item.key == key;
    LessIsTotal(key, key);
  }

  lemma WithoutLast(a: seq<Item>)
    requires DistinctKeys(a) && a != []
    ensures KeysOf(a[..|a| - 1]) == KeysOf(a) - {a[|a| - 1].key}
  {
    var n := |a| - 1;
    assert a == a[..n] + [a[n]];
    assert forall item | item in a[..n] :: item.key != a[n].key;
  }

  lemma SameKeys(v: Value, w: Value)
    requires v.Map? && SameUpToOrder(v, w) && DistinctKeys(v.items) && DistinctKeys(w.items)
    ensures KeysOf(v.items) == KeysOf(w.items)
  {
    forall key | key in KeysOf(v.items) ensures key in KeysOf(w.items) {
      var item :| item in v.items && item.key == key;
      var i :| 0 <= i < |v.items| && v.items[i] == item;
      var j :| 0 <= j < |w.items| && v.items[i].key == w.items[j].key
          && SameUpToOrder(v.items[i].value, w.items[j].value);
      assert w.items[j] in w.items;
    }
    KeyCount(v.items);
    KeyCount(w.items);
    SubsetSizes(KeysOf(v.items), KeysOf(w.items));
  }

  /** Values equal up to mapping order have the same steps, to children equal up to mapping order. */
  lemma SameChildren(v: Value, w: Value, i: nat)
    requires SameUpToOrder(v, w) && WellFormed(v) && WellFormed(w) && i < Width(v)
    ensures Width(w) == Width(v) && StepTo(w, i) == StepTo(v, i) && SameUpToOrder(Child(v, i), Child(w, i))
  {
    if v.Map? {
      SameSortedKeys(v, w);
      SortFacts(v.items);
      SortFacts(w.items);
      var item := Sort(v.items)[i];
      assert item in v.items;
      var a :| 0 <= a < |v.items| && v.items[a] == item;
      var b :| 0 <= b < |w.items| && v.items[a].key == w.items[b].key
          && SameUpToOrder(v.items[a].value, w.items[b].value);
      assert w.items[b] in Sort(w.items);
      var j :| 0 <= j < |w.items| && Sort(w.items)[j] == w.items[b];
      StepsAreDistinct(w, i, j);
    }
  }

  lemma SameSortedKeys(v: Value, w: Value)
    requires v.Map? && SameUpToOrder(v, w) && DistinctKeys(v.items) && DistinctKeys(w.items)
    ensures forall i | 0 <= i < |v.items| :: Sort(v.items)[i].key == Sort(w.items)[i].key
  {
    SameKeys(v, w);
    SortFacts(v.items);
    SortFacts(w.items);
    SortKeepsDistinct(v.items);
    SortKeepsDistinct(w.items);
    assert KeysOf(Sort(v.items)) == KeysOf(v.items) && KeysOf(Sort(w.items)) == KeysOf(w.items);
    SameKeysSamePlaces(Sort(v.items), Sort(w.items));
  }

  lemma SameWidth(v: Value, w: Value)
    requires SameUpToOrder(v, w)
    ensures Width(w) == Width(v)
  {
  }

  ghost predicate AlikeChild(v: Value, w: Value, i: nat, path: seq<Step>, round: Rounding)
    requires i < Width(v) == Width(w)
  {
    && StepTo(w, i) == StepTo(v, i)
    && CleanChild(w, i, round) == CleanChild(v, i, round) && ChildWarnings(w, path, i) == ChildWarnings(v, path, i)
    && (SupportedChild(v, i) <==> SupportedChild(w, i))
  }

  /** Mapping order shows neither in the canonical value nor in the warnings. */
  lemma {:induction false} OrderDoesNotShow(v: Value, w: Value, path: seq<Step>, round: Rounding)
    requires SameUpToOrder(v, w) && WellFormed(v) && WellFormed(w)
    ensures Clean(v, round) == Clean(w, round) && Warnings(v, path) == Warnings(w, path)
    ensures Supported(v) <==> Supported(w)
    decreases v, 1
  {
    SameWidth(v, w);
    forall i: nat | i < Width(v) ensures AlikeChild(v, w, i, path, round) {
      ChildOrderDoesNotShow(v, w, i, path, round);
    }
    AlikeUpTo(v, w, path, Width(v), round);
  }

  lemma ChildOrderDoesNotShow(v: Value, w: Value, i: nat, path: seq<Step>, round: Rounding)
    requires SameUpToOrder(v, w) && WellFormed(v) && WellFormed(w) && i < Width(v) == Width(w)
    ensures AlikeChild(v, w, i, path, round)
    decreases v, 0
  {
    SameChildren(v, w, i);
    OrderDoesNotShow(Child(v, i), Child(w, i), path + [StepTo(v, i)], round);
  }

  lemma {:induction false} AlikeUpTo(v: Value, w: Value, path: seq<Step>, n: nat, round: Rounding)
    requires n <= Width(v) == Width(w) && forall i: nat | i < n :: AlikeChild(v, w, i, path, round)
    ensures WarningsUpTo(w, path, n) == WarningsUpTo(v, path, n) && (SupportedUpTo(w, n) <==> SupportedUpTo(v, n))
    ensures CleanElements(w, n, round) == CleanElements(v, n, round)
    ensures v.Map? && w.Map? ==> CleanItems(w, n, round) == CleanItems(v, n, round)
  {
    if n > 0 {
      AlikeUpTo(v, w, path, n - 1, round);
      assert AlikeChild(v, w, n - 1, path, round);
    }
  }

}
