/**
 * Where the argument validator (rdc_tool/runtime_catalog.py, validate_operation_arguments) and JSON Schema
 * part ways: Python counts booleans as numbers in `enum`, and its integers exclude 1.0.
 */
module JsonAgreement {
  import opened Wrappers
  import opened SchemaValidation

  // ----- integer

  function AsReal(n: int): real {
    n as real
  }

  /** Section 6.1.1 of JSON Schema Validation 2020-12: any number with a zero fractional part. */
  ghost predicate JsonInteger(v: Value) {
    IsNumber(v) && exists n :: NumberOf(v) == AsReal(n)
  }

  /** `integer` differs exactly at the floats without a fractional part, which only JSON Schema accepts. */
  lemma IntegerDiffersIff(v: Value)
    ensures HasType(v, "integer") ==> JsonInteger(v)
    ensures HasType(v, "integer") != JsonInteger(v) <==> v.Float? && v.float == v.float.Floor as real
  {
    match v
    case Int(n) => assert NumberOf(v) == AsReal(n);
    case Float(x) =>
      if x == x.Floor as real {
        assert NumberOf(v) == AsReal(x.Floor);
      }
    case _ =>
  }

  // ----- enum

  /** A dictionary has one entry per key, at any depth. */
  predicate Proper(v: Value) {
    match v
    case List(items) => forall i :: 0 <= i < |items| ==> Proper(items[i])
    case Dict(entries) =>
      && (forall i, j :: 0 <= i < j < |entries| ==> entries[i].0 != entries[j].0)
      && forall i {:trigger entries[i]} :: 0 <= i < |entries| ==> Proper(entries[i].1)
    case _ => true
  }

  /** Equality of JSON values: booleans are no numbers. */
  predicate JsonEqual(a: Value, b: Value) {
    match (a, b)
    case (List(xs), List(ys)) => |xs| == |ys| && forall i :: 0 <= i < |xs| ==> JsonEqual(xs[i], ys[i])
    case (Dict(xs), Dict(ys)) =>
      && |xs| == |ys|
      && forall i {:trigger xs[i]} :: 0 <= i < |xs| ==>
           HasKey(ys, xs[i].0) && JsonEqual(xs[i].1, Lookup(ys, xs[i].0).value)
    case _ => if IsNumber(a) && IsNumber(b) then NumberOf(a) == NumberOf(b) else a == b
  }

  predicate MatchesJson(v: Value, choices: seq<Value>) {
    exists i :: 0 <= i < |choices| && JsonEqual(v, choices[i])
  }

  /** Every way to write some of a value's booleans as 0 or 1, or some of its zeros and ones as booleans. */
  function Variants(c: Value): set<Value>
    decreases c, 1, 0
  {
    match c
    case Bool(b) => {c, Int(if b then 1 else 0)}
    case Int(n) => if n == 0 || n == 1 then {c, Bool(n == 1)} else {c}
    case Float(x) => if x == 0.0 || x == 1.0 then {c, Bool(x == 1.0)} else {c}
    case List(_) => set t | t in ItemVariants(c, 0) :: List(t)
    case Dict(_) => set t | t in EntryVariants(c, 0) :: Dict(t)
    case _ => {c}
  }

  function ItemVariants(c: Value, from: nat): set<seq<Value>>
    requires c.List? && from <= |c.items|
    decreases c, 0, |c.items| - from
  {
    if from == |c.items| then {[]}
    else set h, t | h in Variants(c.items[from]) && t in ItemVariants(c, from + 1) :: [h] + t
  }

  function EntryVariants(c: Value, from: nat): set<seq<(string, Value)>>
    requires c.Dict? && from <= |c.entries|
    decreases c, 0, |c.entries| - from
  {
    if from == |c.entries| then {[]}
    else
      set h, t | h in Variants(c.entries[from].1) && t in EntryVariants(c, from + 1) :: [(c.entries[from].0, h)] + t
  }

  /** Each of these values is a variant of its item of `c`, from `from` on. */
  predicate ItemsVary(c: Value, from: nat, t: seq<Value>)
    requires c.List? && from <= |c.items|
  {
    |t| == |c.items| - from && forall i :: 0 <= i < |t| ==> t[i] in Variants(c.items[from + i])
  }

  lemma ItemsVaryStep(c: Value, from: nat, t: seq<Value>)
    requires c.List? && from < |c.items| && t != []
    ensures ItemsVary(c, from, t) <==> t[0] in Variants(c.items[from]) && ItemsVary(c, from + 1, t[1..])
  {
    var rest := t[1..];
    if ItemsVary(c, from, t) {
      assert t[0] in Variants(c.items[from + 0]);
      forall i | 0 <= i < |rest| ensures rest[i] in Variants(c.items[from + 1 + i]) {
        assert t[i + 1] in Variants(c.items[from + (i + 1)]);
      }
    }
    if t[0] in Variants(c.items[from]) && ItemsVary(c, from + 1, rest) {
      forall i | 0 <= i < |t| ensures t[i] in Variants(c.items[from + i]) {
        if 0 < i {
          assert rest[i - 1] in Variants(c.items[from + 1 + (i - 1)]);
        }
      }
    }
  }

  lemma ItemVariantsStep(c: Value, from: nat, t: seq<Value>)
    requires c.List? && from < |c.items| && t != []
    ensures t in ItemVariants(c, from) <==> t[0] in Variants(c.items[from]) && t[1..] in ItemVariants(c, from + 1)
  {
    assert [t[0]] + t[1..] == t;
    if t in ItemVariants(c, from) {
      var h, rest :| h in Variants(c.items[from]) && rest in ItemVariants(c, from + 1) && [h] + rest == t;
      assert rest == t[1..];
    }
  }

  lemma {:induction false} ItemVariantsAre(c: Value, from: nat, t: seq<Value>)
    requires c.List? && from <= |c.items|
    ensures t in ItemVariants(c, from) <==> ItemsVary(c, from, t)
    decreases |c.items| - from
  {
    if from < |c.items| && t != [] {
      ItemVariantsAre(c, from + 1, t[1..]);
      ItemVariantsStep(c, from, t);
      ItemsVaryStep(c, from, t);
    }
  }

  predicate EntryVariant(c: Value, i: nat, entry: (string, Value))
    requires c.Dict? && i < |c.entries|
  {
    entry.0 == c.entries[i].0 && entry.1 in Variants(c.entries[i].1)
  }

  predicate EntriesVary(c: Value, from: nat, t: seq<(string, Value)>)
    requires c.Dict? && from <= |c.entries|
  {
    |t| == |c.entries| - from && forall i :: 0 <= i < |t| ==> EntryVariant(c, from + i, t[i])
  }

  lemma EntriesVaryStep(c: Value, from: nat, t: seq<(string, Value)>)
    requires c.Dict? && from < |c.entries| && t != []
    ensures EntriesVary(c, from, t) <==> EntryVariant(c, from, t[0]) && EntriesVary(c, from + 1, t[1..])
  {
    var rest := t[1..];
    if EntriesVary(c, from, t) {
      assert EntryVariant(c, from + 0, t[0]);
      forall i | 0 <= i < |rest| ensures EntryVariant(c, from + 1 + i, rest[i]) {
        assert EntryVariant(c, from + (i + 1), t[i + 1]);
      }
    }
    if EntryVariant(c, from, t[0]) && EntriesVary(c, from + 1, rest) {
      forall i | 0 <= i < |t| ensures EntryVariant(c, from + i, t[i]) {
        if 0 < i {
          assert EntryVariant(c, from + 1 + (i - 1), rest[i - 1]);
        }
      }
    }
  }

  lemma EntryVariantsStep(c: Value, from: nat, t: seq<(string, Value)>)
    requires c.Dict? && from < |c.entries| && t != []
    ensures t in EntryVariants(c, from) <==> EntryVariant(c, from, t[0]) && t[1..] in EntryVariants(c, from + 1)
  {
    assert [(t[0].0, t[0].1)] + t[1..] == t;
    if t in EntryVariants(c, from) {
      var h, rest :| h in Variants(c.entries[from].1) && rest in EntryVariants(c, from + 1)
                     && [(c.entries[from].0, h)] + rest == t;
      assert rest == t[1..];
    }
  }

  lemma {:induction false} EntryVariantsAre(c: Value, from: nat, t: seq<(string, Value)>)
    requires c.Dict? && from <= |c.entries|
    ensures t in EntryVariants(c, from) <==> EntriesVary(c, from, t)
    decreases |c.entries| - from
  {
    if from < |c.entries| && t != [] {
      EntryVariantsAre(c, from + 1, t[1..]);
      EntryVariantsStep(c, from, t);
      EntriesVaryStep(c, from, t);
    }
  }

  lemma LookupAt<T>(entries: seq<(string, T)>, i: nat)
    requires i < |entries| && forall j, k :: 0 <= j < k < |entries| ==> entries[j].0 != entries[k].0
    ensures Lookup(entries, entries[i].0) == Some(entries[i].1)
  {
    var r := Lookup(entries, entries[i].0);
    var k :| 0 <= k < |entries| && entries[k] == (entries[i].0, r.value);
  }

  /** A variant is equal for Python. */
  lemma {:induction false} VariantsAreEqual(c: Value, w: Value)
    requires Proper(c) && w in Variants(c)
    ensures Equal(w, c) && Proper(w)
    decreases c
  {
    match c
    case List(items) =>
      ItemVariantsAre(c, 0, w.items);
      forall i | 0 <= i < |items| ensures Equal(w.items[i], items[i]) && Proper(w.items[i]) {
        VariantsAreEqual(items[i], w.items[i]);
      }
      ItemsAreEqual(w, c, 0);
    case Dict(entries) =>
      EntryVariantsAre(c, 0, w.entries);
      forall i | 0 <= i < |entries|
        ensures w.entries[i].0 == entries[i].0 && EntryEqual(w, c, i) && Proper(w.entries[i].1)
      {
        assert EntryVariant(c, 0 + i, w.entries[i]);
        VariantsAreEqual(entries[i].1, w.entries[i].1);
        LookupAt(entries, i);
      }
      EntriesAreEqual(w, c, 0);
      forall i, j | 0 <= i < j < |w.entries| ensures w.entries[i].0 != w.entries[j].0 {
        assert w.entries[i].0 == entries[i].0 && w.entries[j].0 == entries[j].0;
      }
    case _ =>
  }

  function Keys<T>(entries: seq<(string, T)>): set<string> {
    set i | 0 <= i < |entries| :: entries[i].0
  }

  lemma {:induction false} OneKeyPerEntry<T>(entries: seq<(string, T)>)
    requires forall i, j :: 0 <= i < j < |entries| ==> entries[i].0 != entries[j].0
    ensures |Keys(entries)| == |entries|
  {
    if entries != [] {
      var rest := entries[1..];
      OneKeyPerEntry(rest);
      assert forall i :: 0 < i < |entries| ==> entries[i] == rest[i - 1];
      assert forall i :: 0 <= i < |rest| ==> rest[i] == entries[i + 1];
      assert Keys(entries) == {entries[0].0} + Keys(rest);
    }
  }

  lemma SameSize(a: set<string>, b: set<string>)
    requires a <= b && |a| == |b|
    ensures a == b
  {
    assert |b - a| == 0;
  }

  /** Equal dictionaries have the same keys. */
  lemma SameKeys(a: Value, b: Value)
    requires a.Dict? && b.Dict? && Proper(a) && Proper(b) && Equal(a, b)
    ensures forall i :: 0 <= i < |b.entries| ==> HasKey(a.entries, b.entries[i].0)
  {
    EntriesAreEqual(a, b, 0);
    OneKeyPerEntry(a.entries);
    OneKeyPerEntry(b.entries);
    forall key | key in Keys(a.entries) ensures key in Keys(b.entries) {
      var i :| 0 <= i < |a.entries| && a.entries[i].0 == key;
      assert EntryEqual(a, b, i);
    }
    SameSize(Keys(a.entries), Keys(b.entries));
    forall i | 0 <= i < |b.entries| ensures HasKey(a.entries, b.entries[i].0) {
      assert b.entries[i].0 in Keys(b.entries);
    }
  }

  /** The variant of `c` that writes its booleans and numbers as `v` does. */
  function Recast(v: Value, c: Value): Value
    decreases c
  {
    match c
    case List(items) =>
      if !v.List? || |v.items| != |items| then c
      else List(seq(|items|, i requires 0 <= i < |items| => Recast(v.items[i], items[i])))
    case Dict(entries) =>
      if !v.Dict? then c
      else
        Dict(seq(|entries|, i requires 0 <= i < |entries| =>
          match Lookup(v.entries, entries[i].0)
          case None => entries[i]
          case Some(inner) => (entries[i].0, Recast(inner, entries[i].1))))
    case Bool(b) => if v.Bool? then c else Int(if b then 1 else 0)
    case _ => if v.Bool? then v else c
  }

  /** What is equal for Python is a JSON value equal to some variant. */
  lemma {:induction false} RecastIsVariant(v: Value, c: Value)
    requires Proper(v) && Proper(c) && Equal(v, c)
    ensures Recast(v, c) in Variants(c) && JsonEqual(v, Recast(v, c))
    decreases c, 1
  {
    match c
    case List(items) =>
      var w := Recast(v, c);
      ItemsAreEqual(v, c, 0);
      forall i | 0 <= i < |items| ensures w.items[i] in Variants(items[i]) && JsonEqual(v.items[i], w.items[i]) {
        RecastIsVariant(v.items[i], items[i]);
      }
      ItemVariantsAre(c, 0, w.items);
    case Dict(_) => DictIsVariant(v, c);
    case _ =>
  }

  lemma {:induction false} DictIsVariant(v: Value, c: Value)
    requires Proper(v) && Proper(c) && v.Dict? && c.Dict? && Equal(v, c)
    ensures Recast(v, c) in Variants(c) && JsonEqual(v, Recast(v, c))
    decreases c, 0, 1
  {
    var t := Recast(v, c).entries;
    SameKeys(v, c);
    EntriesAreEqual(v, c, 0);
    forall i | 0 <= i < |c.entries| ensures EntryRecast(v, c, i, t[i]) {
      EntryIsVariant(v, c, i);
    }
    EntriesAreVariant(v, c, t);
    EntriesMatch(v, c, t);
  }

  /** An entry of `c`, written as `v` writes it. */
  predicate EntryRecast(v: Value, c: Value, i: nat, entry: (string, Value))
    requires v.Dict? && c.Dict? && i < |c.entries|
  {
    && EntryVariant(c, i, entry)
    && HasKey(v.entries, c.entries[i].0)
    && JsonEqual(Lookup(v.entries, c.entries[i].0).value, entry.1)
  }

  lemma EntriesAreVariant(v: Value, c: Value, t: seq<(string, Value)>)
    requires v.Dict? && c.Dict? && |t| == |c.entries|
    requires forall i :: 0 <= i < |t| ==> EntryRecast(v, c, i, t[i])
    ensures Dict(t) in Variants(c)
  {
    forall i | 0 <= i < |t| ensures EntryVariant(c, 0 + i, t[i]) {
      assert EntryRecast(v, c, i, t[i]);
    }
    EntryVariantsAre(c, 0, t);
  }

  lemma {:induction false} EntryIsVariant(v: Value, c: Value, at: nat)
    requires Proper(v) && Proper(c) && v.Dict? && c.Dict? && at < |c.entries|
    requires forall i :: 0 <= i < |v.entries| ==> EntryEqual(v, c, i)
    requires HasKey(v.entries, c.entries[at].0)
    ensures var inner := Lookup(v.entries, c.entries[at].0).value;
            var h := Recast(inner, c.entries[at].1);
            h in Variants(c.entries[at].1) && JsonEqual(inner, h)
    decreases c, 0, 0
  {
    var k :| 0 <= k < |v.entries| && v.entries[k].0 == c.entries[at].0;
    assert EntryEqual(v, c, k);
    LookupAt(v.entries, k);
    LookupAt(c.entries, at);
    RecastIsVariant(v.entries[k].1, c.entries[at].1);
  }

  lemma EntriesMatch(v: Value, c: Value, t: seq<(string, Value)>)
    requires Proper(v) && Proper(c) && v.Dict? && c.Dict? && |t| == |c.entries|
    requires forall i :: 0 <= i < |v.entries| ==> EntryEqual(v, c, i)
    requires forall i :: 0 <= i < |t| ==> EntryRecast(v, c, i, t[i])
    ensures forall i {:trigger v.entries[i]} :: 0 <= i < |v.entries| ==>
              HasKey(t, v.entries[i].0) && JsonEqual(v.entries[i].1, Lookup(t, v.entries[i].0).value)
  {
    forall i, j | 0 <= i < j < |t| ensures t[i].0 != t[j].0 {
      assert EntryRecast(v, c, i, t[i]) && EntryRecast(v, c, j, t[j]);
    }
    forall i | 0 <= i < |v.entries|
      ensures HasKey(t, v.entries[i].0) && JsonEqual(v.entries[i].1, Lookup(t, v.entries[i].0).value)
    {
      assert EntryEqual(v, c, i);
      var k :| 0 <= k < |c.entries| && c.entries[k].0 == v.entries[i].0;
      assert EntryRecast(v, c, k, t[k]);
      LookupAt(t, k);
      LookupAt(v.entries, i);
    }
  }

  /** JSON equality is the finer of the two. */
  lemma {:induction false} JsonEqualIsEqual(a: Value, b: Value)
    requires JsonEqual(a, b)
    ensures Equal(a, b)
    decreases a
  {
    match (a, b)
    case (List(xs), List(ys)) =>
      forall i | 0 <= i < |xs| ensures Equal(xs[i], ys[i]) {
        JsonEqualIsEqual(xs[i], ys[i]);
      }
      ItemsAreEqual(a, b, 0);
    case (Dict(xs), Dict(ys)) =>
      forall i | 0 <= i < |xs| ensures EntryEqual(a, b, i) {
        JsonEqualIsEqual(xs[i].1, Lookup(ys, xs[i].0).value);
      }
      EntriesAreEqual(a, b, 0);
    case _ =>
  }

  lemma {:induction false} JsonEqualJoins(a: Value, b: Value, c: Value)
    requires JsonEqual(a, b) && JsonEqual(b, c)
    ensures JsonEqual(a, c)
    decreases a
  {
    match (a, b)
    case (List(xs), List(ys)) =>
      forall i | 0 <= i < |xs| ensures JsonEqual(xs[i], c.items[i]) {
        JsonEqualJoins(xs[i], ys[i], c.items[i]);
      }
    case (Dict(xs), Dict(ys)) =>
      forall i | 0 <= i < |xs|
        ensures HasKey(c.entries, xs[i].0) && JsonEqual(xs[i].1, Lookup(c.entries, xs[i].0).value)
      {
        var k :| 0 <= k < |ys| && ys[k] == (xs[i].0, Lookup(ys, xs[i].0).value);
        JsonEqualJoins(xs[i].1, ys[k].1, Lookup(c.entries, xs[i].0).value);
      }
    case _ =>
  }

  // ----- Main results

  /** `enum` accepts what JSON Schema (section 6.1.2) accepts, whatever the value. */
  ghost predicate EnumAgrees(choices: seq<Value>) {
    forall v :: Proper(v) ==> (MatchesChoice(v, choices) <==> MatchesJson(v, choices))
  }

  lemma JsonMatchIsMatch(v: Value, choices: seq<Value>)
    ensures MatchesJson(v, choices) ==> MatchesChoice(v, choices)
  {
    MatchesChoiceIff(v, choices);
    if i :| 0 <= i < |choices| && JsonEqual(v, choices[i]) {
      JsonEqualIsEqual(v, choices[i]);
    }
  }

  /** It does so exactly when every variant of a listed value is listed; there are finitely many of them. */
  lemma EnumAgreesIff(choices: seq<Value>)
    requires forall i :: 0 <= i < |choices| ==> Proper(choices[i])
    ensures EnumAgrees(choices)
       <==> forall i, w :: 0 <= i < |choices| && w in Variants(choices[i]) ==> MatchesJson(w, choices)
  {
    if EnumAgrees(choices) {
      forall i, w | 0 <= i < |choices| && w in Variants(choices[i]) ensures MatchesJson(w, choices) {
        VariantsAreEqual(choices[i], w);
        MatchesChoiceIff(w, choices);
      }
    }
    if forall i, w :: 0 <= i < |choices| && w in Variants(choices[i]) ==> MatchesJson(w, choices) {
      forall v | Proper(v) ensures MatchesChoice(v, choices) <==> MatchesJson(v, choices) {
        JsonMatchIsMatch(v, choices);
        MatchesChoiceIff(v, choices);
        if i :| 0 <= i < |choices| && Equal(v, choices[i]) {
          var w := Recast(v, choices[i]);
          RecastIsVariant(v, choices[i]);
          assert MatchesJson(w, choices);
          var k :| 0 <= k < |choices| && JsonEqual(w, choices[k]);
          JsonEqualJoins(v, w, choices[k]);
        }
      }
    }
  }

  predicate Scalar(v: Value) {
    !v.List? && !v.Dict?
  }

  predicate ListsFlag(choices: seq<Value>, flag: bool) {
    exists i :: 0 <= i < |choices| && choices[i] == Bool(flag)
  }

  predicate ListsNumber(choices: seq<Value>, number: real) {
    exists i :: 0 <= i < |choices| && IsNumber(choices[i]) && NumberOf(choices[i]) == number
  }

  predicate FlagsFollowNumbers(choices: seq<Value>) {
    && (ListsFlag(choices, true) <==> ListsNumber(choices, 1.0))
    && (ListsFlag(choices, false) <==> ListsNumber(choices, 0.0))
  }

  /** For scalars: True is listed exactly when 1 is, and False exactly when 0 is. */
  lemma ScalarEnumAgreesIff(choices: seq<Value>)
    requires forall i :: 0 <= i < |choices| ==> Scalar(choices[i])
    ensures EnumAgrees(choices) <==> FlagsFollowNumbers(choices)
  {
    EnumAgreesIff(choices);
    ScalarMatches(choices, true);
    ScalarMatches(choices, false);
    if FlagsFollowNumbers(choices) {
      forall i, w | 0 <= i < |choices| && w in Variants(choices[i]) ensures MatchesJson(w, choices) {
        ScalarVariantListed(choices, i, w);
      }
    } else {
      UnlistedVariant(choices, !(ListsFlag(choices, true) <==> ListsNumber(choices, 1.0)));
    }
  }

  lemma ScalarVariantListed(choices: seq<Value>, i: nat, w: Value)
    requires i < |choices| && Scalar(choices[i]) && w in Variants(choices[i]) && FlagsFollowNumbers(choices)
    ensures MatchesJson(w, choices)
  {
    ScalarMatches(choices, true);
    ScalarMatches(choices, false);
    if w == choices[i] {
      assert JsonEqual(w, choices[i]);
    } else if w.Bool? {
      assert NumberOf(choices[i]) == if w.flag then 1.0 else 0.0;
      assert ListsNumber(choices, if w.flag then 1.0 else 0.0);
    } else {
      assert ListsFlag(choices, choices[i].flag);
    }
  }

  lemma UnlistedVariant(choices: seq<Value>, flag: bool)
    requires ListsFlag(choices, flag) != ListsNumber(choices, if flag then 1.0 else 0.0)
    ensures exists i, w :: 0 <= i < |choices| && w in Variants(choices[i]) && !MatchesJson(w, choices)
  {
    ScalarMatches(choices, flag);
    if ListsFlag(choices, flag) {
      var i :| 0 <= i < |choices| && choices[i] == Bool(flag);
      assert Int(if flag then 1 else 0) in Variants(choices[i]);
    } else {
      var i :| 0 <= i < |choices| && IsNumber(choices[i]) && NumberOf(choices[i]) == if flag then 1.0 else 0.0;
      assert Bool(flag) in Variants(choices[i]);
    }
  }

  lemma ScalarMatches(choices: seq<Value>, flag: bool)
    ensures MatchesJson(Bool(flag), choices) <==> ListsFlag(choices, flag)
    ensures MatchesJson(Int(if flag then 1 else 0), choices) <==> ListsNumber(choices, if flag then 1.0 else 0.0)
  {
    var n := Int(if flag then 1 else 0);
    if i :| 0 <= i < |choices| && choices[i] == Bool(flag) {
      assert JsonEqual(Bool(flag), choices[i]);
    }
    if i :| 0 <= i < |choices| && IsNumber(choices[i]) && NumberOf(choices[i]) == NumberOf(n) {
      assert JsonEqual(n, choices[i]);
    }
    if i :| 0 <= i < |choices| && JsonEqual(n, choices[i]) {
      assert IsNumber(choices[i]);
    }
  }

  /** An instance: True passes where only 1 is listed. */
  lemma EnumConfusesTrueWithOne()
    ensures Validate(Bool(true), ANY.(choices := Some([Int(1)]))) == Valid
    ensures !MatchesJson(Bool(true), [Int(1)])
  {
    assert Equal(Bool(true), Int(1));
    MatchesChoiceIff(Bool(true), [Int(1)]);
  }

  /** And [True] passes where only [1] is. */
  lemma EnumConfusesNestedTrue()
    ensures MatchesChoice(List([Bool(true)]), [List([Int(1)])])
    ensures !MatchesJson(List([Bool(true)]), [List([Int(1)])])
  {
    var v, c := List([Bool(true)]), List([Int(1)]);
    ItemsAreEqual(v, c, 0);
    assert Equal(v.items[0], c.items[0]) && !JsonEqual(v.items[0], c.items[0]);
    assert Equal(v, c) && !JsonEqual(v, c);
  }
}
