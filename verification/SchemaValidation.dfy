/**
 * The argument validator shared by every operation
 * (rdc_tool/runtime_catalog.py, validate_operation_arguments).
 *
 * `Validate` follows the source's order of checks and reports its first error. `Satisfies` is the
 * declarative meaning of the handled keywords, in the terms of sections 6.1 to 6.5 of JSON Schema
 * Validation 2020-12 and section 10.2.1 of JSON Schema Core 2020-12, with Python's equality and types.
 */
module SchemaValidation {
  import opened Wrappers

  datatype Value =
    | Null
    | Bool(flag: bool)
    | Int(number: int)
    | Float(float: real)
    | Str(text: string)
    | List(items: seq<Value>)
    | Dict(entries: seq<(string, Value)>)

  /** `oneOf`: absent, or present with its candidates, of which there may be none. */
  datatype Alternatives = Unrestricted | ExactlyOne(candidates: seq<Schema>)

  datatype Schema = Schema(
    oneOf: Alternatives,
    forbidden: Option<Schema>,
    types: seq<string>,
    choices: Option<seq<Value>>,
    minLength: Option<int>,
    maxLength: Option<int>,
    minItems: Option<int>,
    maxItems: Option<int>,
    minimum: Option<real>,
    maximum: Option<real>,
    required: seq<string>,
    closed: bool,
    properties: seq<(string, Schema)>,
    items: Option<Schema>)

  /** The schema `{}`, which `items` defaults to. */
  const ANY := Schema(Unrestricted, None, [], None, None, None, None, None, None, None, [], false, [], None)

  datatype Keyword =
    | OneOf | Not | Type | Enum | TooShort | TooLong | TooFew | TooMany
    | TooSmall | TooLarge | Required | AdditionalProperties

  datatype Step = Member(key: string) | Element(index: nat)

  /** Which check failed, and where below the validated value. */
  datatype Problem = Problem(path: seq<Step>, keyword: Keyword)

  datatype Outcome = Valid | Invalid(problem: Problem)

  // ----- Python's view of values

  /** Booleans are numbers for equality: True == 1 == 1.0. */
  function Numeric(v: Value): Option<real> {
    match v
    case Bool(b) => Some(if b then 1.0 else 0.0)
    case Int(n) => Some(n as real)
    case Float(x) => Some(x)
    case _ => None
  }

  predicate HasKey<T>(entries: seq<(string, T)>, key: string) {
    exists i :: 0 <= i < |entries| && entries[i].0 == key
  }

  /** The value of a key; a dictionary has one entry per key. */
  function Lookup<T>(entries: seq<(string, T)>, key: string): (r: Option<T>)
    ensures r.Some? <==> HasKey(entries, key)
    ensures r.Some? ==> exists i :: 0 <= i < |entries| && entries[i] == (key, r.value)
  {
    if entries == [] then None
    else if entries[0].0 == key then
      assert entries[0] == (key, entries[0].1);
      Some(entries[0].1)
    else
      var r := Lookup(entries[1..], key);
      assert forall i :: 0 < i < |entries| ==> entries[i] == entries[1..][i - 1];
      r
  }

  /** Python's ==. */
  predicate Equal(a: Value, b: Value)
    decreases a, 1, 0
  {
    match (a, b)
    case (Null, Null) => true
    case (Str(s), Str(t)) => s == t
    case (List(xs), List(ys)) => |xs| == |ys| && EqualItems(a, b, 0)
    case (Dict(xs), Dict(ys)) => |xs| == |ys| && EqualEntries(a, b, 0)
    case _ => Numeric(a).Some? && Numeric(a) == Numeric(b)
  }

  predicate EqualItems(a: Value, b: Value, from: nat)
    requires a.List? && b.List? && |a.items| == |b.items| && from <= |a.items|
    decreases a, 0, |a.items| - from
  {
    from < |a.items| ==> Equal(a.items[from], b.items[from]) && EqualItems(a, b, from + 1)
  }

  predicate EqualEntries(a: Value, b: Value, from: nat)
    requires a.Dict? && b.Dict? && from <= |a.entries|
    decreases a, 0, |a.entries| - from
  {
    from < |a.entries| ==>
      && Lookup(b.entries, a.entries[from].0).Some?
      && Equal(a.entries[from].1, Lookup(b.entries, a.entries[from].0).value)
      && EqualEntries(a, b, from + 1)
  }

  predicate IsNumber(v: Value) {
    v.Int? || v.Float?
  }

  function NumberOf(v: Value): real
    requires IsNumber(v)
  {
    if v.Int? then v.number as real else v.float
  }

  /** `isinstance` with bool kept apart from int; an unknown type name never matches. */
  predicate HasType(v: Value, name: string) {
    || (name == "object" && v.Dict?)
    || (name == "array" && v.List?)
    || (name == "string" && v.Str?)
    || (name == "integer" && v.Int?)
    || (name == "number" && IsNumber(v))
    || (name == "boolean" && v.Bool?)
    || (name == "null" && v.Null?)
  }

  /** The type names of each value; a boolean is no integer, and an integer is a number too. */
  lemma TypesAre(v: Value, name: string)
    ensures HasType(v, name) <==>
      name in match v
              case Null => {"null"}
              case Bool(_) => {"boolean"}
              case Int(_) => {"integer", "number"}
              case Float(_) => {"number"}
              case Str(_) => {"string"}
              case List(_) => {"array"}
              case Dict(_) => {"object"}
  {
  }

  /** What == amounts to: numbers and booleans by value, texts by text, lists and dictionaries part by part. */
  lemma EqualIs(a: Value, b: Value)
    ensures Equal(a, b) <==>
      match (a, b)
      case (Null, Null) => true
      case (Bool(x), Bool(y)) => x == y
      case (Bool(x), Int(n)) => n == if x then 1 else 0
      case (Int(n), Bool(x)) => n == if x then 1 else 0
      case (Bool(x), Float(f)) => f == if x then 1.0 else 0.0
      case (Float(f), Bool(x)) => f == if x then 1.0 else 0.0
      case (Int(m), Int(n)) => m == n
      case (Int(n), Float(f)) => n as real == f
      case (Float(f), Int(n)) => n as real == f
      case (Float(f), Float(g)) => f == g
      case (Str(t), Str(u)) => t == u
      case (List(xs), List(ys)) => |xs| == |ys| && forall i :: 0 <= i < |xs| ==> Equal(xs[i], ys[i])
      case (Dict(xs), Dict(ys)) =>
        && |xs| == |ys|
        && forall i :: 0 <= i < |xs| ==>
             HasKey(ys, xs[i].0) && Equal(xs[i].1, Lookup(ys, xs[i].0).value)
      case _ => false
  {
    match (a, b)
    case (List(xs), List(ys)) =>
      if |xs| == |ys| {
        ItemsAreEqual(a, b, 0);
      }
    case (Dict(xs), Dict(ys)) =>
      EntriesAreEqual(a, b, 0);
      if |xs| == |ys| {
        assert forall i :: 0 <= i < |xs| ==>
          (EntryEqual(a, b, i) <==> HasKey(ys, xs[i].0) && Equal(xs[i].1, Lookup(ys, xs[i].0).value));
      }
    case _ =>
  }

  lemma {:induction false} ItemsAreEqual(a: Value, b: Value, from: nat)
    requires a.List? && b.List? && |a.items| == |b.items| && from <= |a.items|
    ensures EqualItems(a, b, from) <==> forall i :: from <= i < |a.items| ==> Equal(a.items[i], b.items[i])
    decreases |a.items| - from
  {
    if from < |a.items| {
      ItemsAreEqual(a, b, from + 1);
    }
  }

  predicate EntryEqual(a: Value, b: Value, i: nat)
    requires a.Dict? && b.Dict? && i < |a.entries|
  {
    HasKey(b.entries, a.entries[i].0) && Equal(a.entries[i].1, Lookup(b.entries, a.entries[i].0).value)
  }

  lemma {:induction false} EntriesAreEqual(a: Value, b: Value, from: nat)
    requires a.Dict? && b.Dict? && from <= |a.entries|
    ensures EqualEntries(a, b, from) <==> forall i :: from <= i < |a.entries| ==> EntryEqual(a, b, i)
    decreases |a.entries| - from
  {
    if from < |a.entries| {
      EntriesAreEqual(a, b, from + 1);
      var found := Lookup(b.entries, a.entries[from].0);
      assert EntryEqual(a, b, from) <==> found.Some? && Equal(a.entries[from].1, found.value);
    }
  }

  // ----- The validator

  /** A value's own checks, in the order in which they run. */
  const CHECKS: seq<Keyword> := [
    OneOf, Not, Type, Enum, TooShort, TooLong, TooFew, TooMany, TooSmall, TooLarge, Required, AdditionalProperties]

  function Validate(v: Value, s: Schema): Outcome
    decreases v, s, 5
  {
    match FirstFailing(v, s, 0)
    case Some(keyword) => Invalid(Problem([], keyword))
    case None => ValidateParts(v, s)
  }

  function FirstFailing(v: Value, s: Schema, from: nat): Option<Keyword>
    requires from <= |CHECKS|
    decreases v, s, 4, |CHECKS| - from
  {
    if from == |CHECKS| then None
    else if !Passes(CHECKS[from], v, s) then Some(CHECKS[from])
    else FirstFailing(v, s, from + 1)
  }

  predicate Passes(keyword: Keyword, v: Value, s: Schema)
    decreases v, s, 3
  {
    match keyword
    case OneOf => !(s.oneOf.ExactlyOne? && CountMatches(v, s, 0) != 1)
    case Not => !(s.forbidden.Some? && Validate(v, s.forbidden.value) == Valid)
    case Type => !(s.types != [] && !MatchesType(v, s.types))
    case Enum => !(s.choices.Some? && !MatchesChoice(v, s.choices.value))
    case TooShort => !(v.Str? && s.minLength.Some? && |v.text| < s.minLength.value)
    case TooLong => !(v.Str? && s.maxLength.Some? && |v.text| > s.maxLength.value)
    case TooFew => !(v.List? && s.minItems.Some? && |v.items| < s.minItems.value)
    case TooMany => !(v.List? && s.maxItems.Some? && |v.items| > s.maxItems.value)
    case TooSmall => !(IsNumber(v) && s.minimum.Some? && NumberOf(v) < s.minimum.value)
    case TooLarge => !(IsNumber(v) && s.maximum.Some? && NumberOf(v) > s.maximum.value)
    case Required => !(v.Dict? && Missing(v.entries, s.required) != [])
    case AdditionalProperties => !(v.Dict? && s.closed && Unknown(v.entries, s.properties) != [])
  }

  function ValidateParts(v: Value, s: Schema): Outcome
    decreases v, s, 4, 0
  {
    match v
    case Dict(_) => ValidateEntries(v, s, 0)
    case List(_) => ValidateItems(v, s, 0)
    case _ => Valid
  }

  /** `sum(matches(candidate) for candidate in oneOf)`: every candidate is tried. */
  function CountMatches(v: Value, s: Schema, from: nat): nat
    requires s.oneOf.ExactlyOne? && from <= |s.oneOf.candidates|
    decreases v, s, 2, |s.oneOf.candidates| - from
  {
    if from == |s.oneOf.candidates| then 0
    else (if Validate(v, s.oneOf.candidates[from]) == Valid then 1 else 0) + CountMatches(v, s, from + 1)
  }

  predicate MatchesType(v: Value, names: seq<string>) {
    names != [] && (HasType(v, names[0]) || MatchesType(v, names[1..]))
  }

  predicate MatchesChoice(v: Value, choices: seq<Value>) {
    choices != [] && (Equal(v, choices[0]) || MatchesChoice(v, choices[1..]))
  }

  function Missing(entries: seq<(string, Value)>, required: seq<string>): seq<string> {
    if required == [] then []
    else if Lookup(entries, required[0]).None? then [required[0]] + Missing(entries, required[1..])
    else Missing(entries, required[1..])
  }

  function Unknown(entries: seq<(string, Value)>, properties: seq<(string, Schema)>): seq<string> {
    if entries == [] then []
    else if Lookup(properties, entries[0].0).None? then [entries[0].0] + Unknown(entries[1..], properties)
    else Unknown(entries[1..], properties)
  }

  function Under(step: Step, o: Outcome): Outcome {
    match o
    case Valid => Valid
    case Invalid(p) => Invalid(Problem([step] + p.path, p.keyword))
  }

  function ItemSchema(s: Schema): Schema {
    if s.items.Some? then s.items.value else ANY
  }

  function ValidateEntries(v: Value, s: Schema, from: nat): Outcome
    requires v.Dict? && from <= |v.entries|
    decreases v, s, 1, |v.entries| - from
  {
    if from == |v.entries| then Valid
    else
      var first := ValidateEntry(v, s, from);
      if first.Invalid? then first else ValidateEntries(v, s, from + 1)
  }

  function ValidateEntry(v: Value, s: Schema, at: nat): Outcome
    requires v.Dict? && at < |v.entries|
    decreases v, s, 0
  {
    match Lookup(s.properties, v.entries[at].0)
    case None => Valid
    case Some(schema) => Under(Member(v.entries[at].0), Validate(v.entries[at].1, schema))
  }

  function ValidateItems(v: Value, s: Schema, from: nat): Outcome
    requires v.List? && from <= |v.items|
    decreases v, s, 1, |v.items| - from
  {
    if from == |v.items| then Valid
    else
      var first := Under(Element(from), Validate(v.items[from], ItemSchema(s)));
      if first.Invalid? then first else ValidateItems(v, s, from + 1)
  }

  /** An operation of the catalog: its name and input schema. */
  datatype Operation = Operation(name: string, inputSchema: Schema)

  datatype Rejection = UnknownOperation(name: string) | BadArguments(problem: Problem)

  function Describe(catalog: seq<Operation>, name: string): (r: Option<Operation>)
    ensures r.None? <==> forall i :: 0 <= i < |catalog| ==> catalog[i].name != name
    ensures r.Some? ==> exists i :: 0 <= i < |catalog| && catalog[i] == r.value && IsFirst(catalog, name, i)
  {
    if catalog == [] then None
    else if catalog[0].name == name then
      assert IsFirst(catalog, name, 0);
      Some(catalog[0])
    else
      var r := Describe(catalog[1..], name);
      assert forall i :: 0 < i < |catalog| ==> catalog[i] == catalog[1..][i - 1];
      assert forall i :: 0 <= i < |catalog| - 1 && IsFirst(catalog[1..], name, i) ==> IsFirst(catalog, name, i + 1);
      r
  }

  predicate IsFirst(catalog: seq<Operation>, name: string, i: nat) {
    && i < |catalog| && catalog[i].name == name
    && forall j :: 0 <= j < i ==> catalog[j].name != name
  }

  function ValidateOperationArguments(catalog: seq<Operation>, name: string, arguments: Value)
    : Result<(), Rejection>
  {
    match Describe(catalog, name)
    case None => Failure(UnknownOperation(name))
    case Some(operation) =>
      match Validate(arguments, operation.inputSchema)
      case Valid => Success(())
      case Invalid(problem) => Failure(BadArguments(problem))
  }

  // ----- The declarative meaning

  ghost predicate OneTrue(bs: seq<bool>) {
    exists i :: 0 <= i < |bs| && bs[i] && forall j :: 0 <= j < |bs| && j != i ==> !bs[j]
  }

  /** Which candidates of `oneOf` the value satisfies. */
  ghost function Verdicts(v: Value, s: Schema): (r: seq<bool>)
    requires s.oneOf.ExactlyOne?
    ensures |r| == |s.oneOf.candidates|
    ensures forall i :: 0 <= i < |r| ==> (r[i] <==> Satisfies(v, s.oneOf.candidates[i]))
    decreases v, s, 0
  {
    seq(|s.oneOf.candidates|, i requires 0 <= i < |s.oneOf.candidates| => Satisfies(v, s.oneOf.candidates[i]))
  }

  /** What one keyword of a schema demands of the value itself. */
  ghost predicate Holds(keyword: Keyword, v: Value, s: Schema)
    decreases v, s, 1
  {
    match keyword
    case OneOf =>
      s.oneOf.ExactlyOne? ==> OneTrue(Verdicts(v, s))
    case Not => s.forbidden.Some? ==> !Satisfies(v, s.forbidden.value)
    case Type => s.types != [] ==> exists i :: 0 <= i < |s.types| && HasType(v, s.types[i])
    case Enum => s.choices.Some? ==> exists i :: 0 <= i < |s.choices.value| && Equal(v, s.choices.value[i])
    case TooShort => v.Str? && s.minLength.Some? ==> s.minLength.value <= |v.text|
    case TooLong => v.Str? && s.maxLength.Some? ==> |v.text| <= s.maxLength.value
    case TooFew => v.List? && s.minItems.Some? ==> s.minItems.value <= |v.items|
    case TooMany => v.List? && s.maxItems.Some? ==> |v.items| <= s.maxItems.value
    case TooSmall =>
      s.minimum.Some? ==>
        (v.Int? ==> s.minimum.value <= v.number as real) && (v.Float? ==> s.minimum.value <= v.float)
    case TooLarge =>
      s.maximum.Some? ==>
        (v.Int? ==> v.number as real <= s.maximum.value) && (v.Float? ==> v.float <= s.maximum.value)
    case Required => v.Dict? ==> forall i :: 0 <= i < |s.required| ==> HasKey(v.entries, s.required[i])
    case AdditionalProperties =>
      v.Dict? && s.closed ==> forall i :: 0 <= i < |v.entries| ==> HasKey(s.properties, v.entries[i].0)
  }

  ghost predicate Satisfies(v: Value, s: Schema)
    decreases v, s, 2
  {
    && (forall keyword: Keyword :: Holds(keyword, v, s))
    && (v.Dict? ==>
          forall i {:trigger v.entries[i]} :: 0 <= i < |v.entries| && HasKey(s.properties, v.entries[i].0) ==>
            Satisfies(v.entries[i].1, Lookup(s.properties, v.entries[i].0).value))
    && (v.List? && s.items.Some? ==>
          forall i :: 0 <= i < |v.items| ==>
            Satisfies(v.items[i], s.items.value))
  }

  /** Items without a schema are free. */
  lemma AnyIsSatisfied(v: Value)
    ensures Satisfies(v, ANY)
  {
    forall k: Keyword ensures Holds(k, v, ANY) {
    }
    if v.Dict? {
      forall i {:trigger v.entries[i]} | 0 <= i < |v.entries| ensures !HasKey(ANY.properties, v.entries[i].0) {
      }
    }
  }

  // ----- The checks, one by one

  function CountTrue(bs: seq<bool>): nat {
    if bs == [] then 0 else (if bs[0] then 1 else 0) + CountTrue(bs[1..])
  }

  lemma {:induction false} CountsOne(bs: seq<bool>)
    ensures CountTrue(bs) == 0 <==> forall i :: 0 <= i < |bs| ==> !bs[i]
    ensures CountTrue(bs) == 1 <==> OneTrue(bs)
  {
    if bs != [] {
      CountsOne(bs[1..]);
      var rest := bs[1..];
      assert forall i :: 0 < i < |bs| ==> bs[i] == rest[i - 1];
      if !bs[0] && OneTrue(rest) {
        var i :| 0 <= i < |rest| && rest[i] && forall j :: 0 <= j < |rest| && j != i ==> !rest[j];
        assert bs[i + 1];
      }
    }
  }

  lemma {:induction false} CountsVerdicts(v: Value, s: Schema, from: nat)
    requires s.oneOf.ExactlyOne? && from <= |s.oneOf.candidates|
    requires forall i :: 0 <= i < |s.oneOf.candidates| ==>
      (Validate(v, s.oneOf.candidates[i]) == Valid <==> Verdicts(v, s)[i])
    ensures CountMatches(v, s, from) == CountTrue(Verdicts(v, s)[from..])
    decreases |s.oneOf.candidates| - from
  {
    if from < |s.oneOf.candidates| {
      CountsVerdicts(v, s, from + 1);
    }
  }

  lemma MatchesTypeIff(v: Value, names: seq<string>)
    ensures MatchesType(v, names) <==> exists i :: 0 <= i < |names| && HasType(v, names[i])
  {
    if names != [] {
      MatchesTypeIff(v, names[1..]);
      assert forall i :: 0 < i < |names| ==> names[i] == names[1..][i - 1];
    }
  }

  lemma MatchesChoiceIff(v: Value, choices: seq<Value>)
    ensures MatchesChoice(v, choices) <==> exists i :: 0 <= i < |choices| && Equal(v, choices[i])
  {
    if choices != [] {
      MatchesChoiceIff(v, choices[1..]);
      assert forall i :: 0 < i < |choices| ==> choices[i] == choices[1..][i - 1];
    }
  }

  lemma MissingIff(entries: seq<(string, Value)>, required: seq<string>)
    ensures Missing(entries, required) == []
       <==> forall i :: 0 <= i < |required| ==> HasKey(entries, required[i])
  {
    if required != [] {
      MissingIff(entries, required[1..]);
      assert forall i :: 0 < i < |required| ==> required[i] == required[1..][i - 1];
    }
  }

  lemma UnknownIff(entries: seq<(string, Value)>, properties: seq<(string, Schema)>)
    ensures Unknown(entries, properties) == []
       <==> forall i :: 0 <= i < |entries| ==> HasKey(properties, entries[i].0)
  {
    if entries != [] {
      UnknownIff(entries[1..], properties);
      assert forall i :: 0 < i < |entries| ==> entries[i] == entries[1..][i - 1];
    }
  }

  // ----- Which problem is reported

  ghost predicate EntryFine(v: Value, s: Schema, i: nat)
    requires v.Dict? && i < |v.entries|
  {
    HasKey(s.properties, v.entries[i].0) ==>
      Satisfies(v.entries[i].1, Lookup(s.properties, v.entries[i].0).value)
  }

  /** `p` is the first demand of the schema that fails, reading each value's own demands before its parts. */
  ghost predicate FirstProblem(v: Value, s: Schema, p: Problem)
    decreases p.path
  {
    if p.path == [] then
      && !Holds(p.keyword, v, s)
      && forall k: Keyword :: Rank(k) < Rank(p.keyword) ==> Holds(k, v, s)
    else
      && (forall k: Keyword :: Holds(k, v, s))
      && var rest := Problem(p.path[1..], p.keyword);
         match p.path[0]
         case Member(key) =>
           && v.Dict?
           && HasKey(s.properties, key)
           && exists i ::
                && 0 <= i < |v.entries|
                && v.entries[i].0 == key
                && FirstProblem(v.entries[i].1, Lookup(s.properties, key).value, rest)
                && forall j :: 0 <= j < i ==> EntryFine(v, s, j)
         case Element(i) =>
           && v.List? && s.items.Some?
           && i < |v.items|
           && FirstProblem(v.items[i], s.items.value, rest)
           && forall j :: 0 <= j < i ==> Satisfies(v.items[j], s.items.value)
  }

  /** The combinators come first, then type and choice, then the lengths and bounds, then the keys. */
  function Rank(k: Keyword): nat {
    match k
    case OneOf => 1
    case Not => 2
    case Type => 3
    case Enum => 4
    case TooShort => 5
    case TooLong => 6
    case TooFew => 7
    case TooMany => 8
    case TooSmall => 9
    case TooLarge => 10
    case Required => 11
    case AdditionalProperties => 12
  }

  // ----- Main result

  ghost predicate CombinatorsExact(v: Value, s: Schema) {
    && (s.oneOf.ExactlyOne? ==> forall i :: 0 <= i < |s.oneOf.candidates| ==>
          (Validate(v, s.oneOf.candidates[i]) == Valid <==> Satisfies(v, s.oneOf.candidates[i])))
    && (s.forbidden.Some? ==> (Validate(v, s.forbidden.value) == Valid <==> Satisfies(v, s.forbidden.value)))
  }

  lemma OneOfIffUnique(v: Value, s: Schema)
    requires CombinatorsExact(v, s)
    ensures Passes(OneOf, v, s) <==> Holds(OneOf, v, s)
  {
    if s.oneOf.ExactlyOne? {
      CountsVerdicts(v, s, 0);
      CountsOne(Verdicts(v, s));
      assert Verdicts(v, s)[0..] == Verdicts(v, s);
    }
  }

  lemma PassesIffHolds(keyword: Keyword, v: Value, s: Schema)
    requires CombinatorsExact(v, s)
    ensures Passes(keyword, v, s) <==> Holds(keyword, v, s)
  {
    match keyword
    case OneOf => OneOfIffUnique(v, s);
    case Type => MatchesTypeIff(v, s.types);
    case Enum =>
      if s.choices.Some? {
        MatchesChoiceIff(v, s.choices.value);
      }
    case Required =>
      if v.Dict? {
        MissingIff(v.entries, s.required);
      }
    case AdditionalProperties =>
      if v.Dict? {
        UnknownIff(v.entries, s.properties);
      }
    case _ =>
  }

  /** The first failing check is reported, or every demand on the value itself holds. */
  lemma {:induction false} FirstFailingIsFirst(v: Value, s: Schema, from: nat)
    requires from <= |CHECKS| && CombinatorsExact(v, s)
    requires forall j :: 0 <= j < from ==> Holds(CHECKS[j], v, s)
    ensures match FirstFailing(v, s, from)
            case Some(k) => FirstProblem(v, s, Problem([], k)) && exists k' :: !Holds(k', v, s)
            case None => forall k: Keyword :: Holds(k, v, s)
    decreases |CHECKS| - from
  {
    if from < |CHECKS| {
      PassesIffHolds(CHECKS[from], v, s);
      if Passes(CHECKS[from], v, s) {
        FirstFailingIsFirst(v, s, from + 1);
      } else {
        FailingIsFirstProblem(v, s, from);
      }
    } else {
      AllChecksHold(v, s);
    }
  }

  lemma FailingIsFirstProblem(v: Value, s: Schema, i: nat)
    requires i < |CHECKS| && !Holds(CHECKS[i], v, s)
    requires forall j :: 0 <= j < i ==> Holds(CHECKS[j], v, s)
    ensures FirstProblem(v, s, Problem([], CHECKS[i]))
  {
    forall k: Keyword | Rank(k) < Rank(CHECKS[i]) ensures Holds(k, v, s) {
      EveryCheckListed(k);
      assert CHECKS[Rank(k) - 1] == k;
    }
  }

  lemma AllChecksHold(v: Value, s: Schema)
    requires forall j :: 0 <= j < |CHECKS| ==> Holds(CHECKS[j], v, s)
    ensures forall k: Keyword :: Holds(k, v, s)
  {
    forall k: Keyword ensures Holds(k, v, s) {
      EveryCheckListed(k);
      var i :| 0 <= i < |CHECKS| && CHECKS[i] == k;
      assert Holds(CHECKS[i], v, s);
    }
  }

  lemma EveryCheckListed(k: Keyword)
    ensures exists i :: 0 <= i < |CHECKS| && CHECKS[i] == k
    ensures forall i :: 0 <= i < |CHECKS| ==> Rank(CHECKS[i]) == i + 1
    ensures Rank(k) <= |CHECKS| && CHECKS[Rank(k) - 1] == k
  {
    assert CHECKS[0] == OneOf && CHECKS[1] == Not && CHECKS[2] == Type && CHECKS[3] == Enum;
    assert CHECKS[4] == TooShort && CHECKS[5] == TooLong && CHECKS[6] == TooFew && CHECKS[7] == TooMany;
    assert CHECKS[8] == TooSmall && CHECKS[9] == TooLarge;
    assert CHECKS[10] == Required && CHECKS[11] == AdditionalProperties;
  }

  lemma SatisfiesEntries(v: Value, s: Schema)
    requires v.Dict? && forall k: Keyword :: Holds(k, v, s)
    ensures Satisfies(v, s) <==> forall i :: 0 <= i < |v.entries| ==> EntryFine(v, s, i)
  {
    if Satisfies(v, s) {
      forall i | 0 <= i < |v.entries| ensures EntryFine(v, s, i) {
        var entry := v.entries[i];
      }
    } else if forall i :: 0 <= i < |v.entries| ==> EntryFine(v, s, i) {
      forall i | 0 <= i < |v.entries| && HasKey(s.properties, v.entries[i].0)
        ensures Satisfies(v.entries[i].1, Lookup(s.properties, v.entries[i].0).value)
      {
        assert EntryFine(v, s, i);
      }
    }
  }

  /**
   * The validator accepts exactly what satisfies the schema, with `oneOf` and `not` nested to any
   * depth, and otherwise reports the first failing demand and where it stands.
   */
  lemma {:induction false} ValidatorIsExact(v: Value, s: Schema)
    ensures Validate(v, s) == Valid <==> Satisfies(v, s)
    ensures Validate(v, s).Invalid? ==> FirstProblem(v, s, Validate(v, s).problem)
    decreases v, s, 1
  {
    if s.oneOf.ExactlyOne? {
      forall i | 0 <= i < |s.oneOf.candidates|
        ensures Validate(v, s.oneOf.candidates[i]) == Valid <==> Satisfies(v, s.oneOf.candidates[i])
      {
        ValidatorIsExact(v, s.oneOf.candidates[i]);
      }
    }
    if s.forbidden.Some? {
      ValidatorIsExact(v, s.forbidden.value);
    }
    FirstFailingIsFirst(v, s, 0);
    if FirstFailing(v, s, 0).None? {
      if v.Dict? {
        EntriesAreExact(v, s, 0);
        SatisfiesEntries(v, s);
      } else if v.List? {
        ItemsAreExact(v, s, 0);
        if s.items.None? {
          forall i | 0 <= i < |v.items| ensures Satisfies(v.items[i], ANY) {
            AnyIsSatisfied(v.items[i]);
          }
        }
        assert Satisfies(v, s) <==> forall i :: 0 <= i < |v.items| ==> Satisfies(v.items[i], ItemSchema(s));
      } else {
        assert Satisfies(v, s);
      }
    } else {
      var k :| !Holds(k, v, s);
      assert !Satisfies(v, s);
    }
  }

  lemma {:induction false} EntriesAreExact(v: Value, s: Schema, from: nat)
    requires v.Dict? && from <= |v.entries|
    requires forall k: Keyword :: Holds(k, v, s)
    requires forall i :: 0 <= i < from ==> EntryFine(v, s, i)
    ensures ValidateEntries(v, s, from) == Valid <==> forall i :: from <= i < |v.entries| ==> EntryFine(v, s, i)
    ensures ValidateEntries(v, s, from).Invalid? ==> FirstProblem(v, s, ValidateEntries(v, s, from).problem)
    decreases v, s, 0, |v.entries| - from
  {
    if from < |v.entries| {
      var key := v.entries[from].0;
      if HasKey(s.properties, key) {
        var schema := Lookup(s.properties, key).value;
        ValidatorIsExact(v.entries[from].1, schema);
        var inner := Validate(v.entries[from].1, schema);
        if inner.Invalid? {
          var p := ValidateEntry(v, s, from).problem;
          assert Problem(p.path[1..], p.keyword) == inner.problem;
          assert FirstProblem(v, s, p);
          assert !EntryFine(v, s, from);
        }
      }
      if ValidateEntry(v, s, from) == Valid {
        assert EntryFine(v, s, from);
        EntriesAreExact(v, s, from + 1);
      }
    }
  }

  lemma {:induction false} ItemsAreExact(v: Value, s: Schema, from: nat)
    requires v.List? && from <= |v.items|
    requires forall k: Keyword :: Holds(k, v, s)
    requires forall i :: 0 <= i < from ==> Satisfies(v.items[i], ItemSchema(s))
    ensures ValidateItems(v, s, from) == Valid
       <==> forall i :: from <= i < |v.items| ==> Satisfies(v.items[i], ItemSchema(s))
    ensures ValidateItems(v, s, from).Invalid? ==> FirstProblem(v, s, ValidateItems(v, s, from).problem)
    decreases v, s, 0, |v.items| - from
  {
    if from < |v.items| {
      ValidatorIsExact(v.items[from], ItemSchema(s));
      AnyIsSatisfied(v.items[from]);
      var inner := Validate(v.items[from], ItemSchema(s));
      if inner.Invalid? {
        var p := Under(Element(from), inner).problem;
        assert Problem(p.path[1..], p.keyword) == inner.problem;
        assert FirstProblem(v, s, p);
      } else {
        ItemsAreExact(v, s, from + 1);
      }
    }
  }

  /** A call meets the first operation of its name: there is none, its schema is satisfied, or what fails is told. */
  lemma OperationArgumentsAreExact(catalog: seq<Operation>, name: string, arguments: Value)
    ensures match ValidateOperationArguments(catalog, name, arguments)
            case Success(_) =>
              exists i: nat :: IsFirst(catalog, name, i) && Satisfies(arguments, catalog[i].inputSchema)
            case Failure(UnknownOperation(asked)) =>
              asked == name && forall i :: 0 <= i < |catalog| ==> catalog[i].name != name
            case Failure(BadArguments(p)) =>
              exists i: nat ::
                && IsFirst(catalog, name, i)
                && !Satisfies(arguments, catalog[i].inputSchema)
                && FirstProblem(arguments, catalog[i].inputSchema, p)
  {
    var found := Describe(catalog, name);
    if found.Some? {
      var i :| 0 <= i < |catalog| && catalog[i] == found.value && IsFirst(catalog, name, i);
      ValidatorIsExact(arguments, catalog[i].inputSchema);
    }
  }
}
