/** The allOf flattening of cmd/azure-codegen/main.go: bounded passes over a
    possibly cyclic graph of definitions, merging in place. */
module ArmFlatten {
  import opened GoStrings

  datatype Json = Str(text: string) | List(items: seq<Json>) | Object(fields: map<string, Json>) | Scalar(text: string)

  type Schema = map<string, Json>
  type Definitions = map<string, Json>

  const PROPERTIES := "properties"
  const REQUIRED := "required"
  const ADDITIONAL := "additionalProperties"
  const ALL_OF := "allOf"
  const REF := "$ref"
  const PREFIX := "#/definitions/"

  lemma DistinctKeys()
    ensures PROPERTIES != REQUIRED && PROPERTIES != ADDITIONAL && PROPERTIES != ALL_OF
    ensures REQUIRED != ADDITIONAL && REQUIRED != ALL_OF && ADDITIONAL != ALL_OF
  {
    assert |PROPERTIES| == 10 && |REQUIRED| == 8 && |ADDITIONAL| == 20 && |ALL_OF| == 5;
  }

  /** A field of the wrong JSON type reads as absent. */
  function ListField(s: Schema, key: string): seq<Json> {
    if key in s && s[key].List? then s[key].items else []
  }

  function ObjectField(s: Schema, key: string): map<string, Json> {
    if key in s && s[key].Object? then s[key].fields else map[]
  }

  function Props(s: Schema): map<string, Json> { ObjectField(s, PROPERTIES) }
  function Required(s: Schema): seq<Json> { ListField(s, REQUIRED) }
  function Items(s: Schema): seq<Json> { ListField(s, ALL_OF) }

  // ----- merging one schema into another

  /** The string entries of `from` that are not yet in the list, each once. */
  function UnionRequired(into: seq<Json>, from: seq<Json>): seq<Json>
    decreases |from|
  {
    if from == [] then into
    else if from[0].Str? && from[0] !in into then UnionRequired(into + [from[0]], from[1..])
    else UnionRequired(into, from[1..])
  }

  function MergeProperties(target: Schema, source: Schema): Schema {
    if Props(source) == map[] then target
    else target[PROPERTIES := Object(Props(source) + Props(target))]
  }

  function MergeRequired(target: Schema, source: Schema): Schema {
    if Required(source) == [] then target
    else target[REQUIRED := List(UnionRequired(Required(target), Required(source)))]
  }

  function MergeAdditional(target: Schema, source: Schema): Schema {
    if ADDITIONAL !in target && ADDITIONAL in source then target[ADDITIONAL := source[ADDITIONAL]] else target
  }

  function Merge(target: Schema, source: Schema): Schema {
    MergeAdditional(MergeRequired(MergeProperties(target, source), source), source)
  }

  /** What inheritance is about: property names and required names. */
  datatype Mark = Property(name: string) | RequiredName(name: string)

  ghost predicate Marked(s: Schema, m: Mark) {
    match m
    case Property(k) => k in Props(s)
    case RequiredName(k) => Str(k) in Required(s)
  }

  lemma {:induction false} UnionHolds(into: seq<Json>, from: seq<Json>, k: string)
    ensures Str(k) in UnionRequired(into, from) <==> Str(k) in into || Str(k) in from
    decreases |from|
  {
    if from != [] {
      if from[0].Str? && from[0] !in into {
        UnionHolds(into + [from[0]], from[1..], k);
      } else {
        UnionHolds(into, from[1..], k);
      }
      assert from == [from[0]] + from[1..];
    }
  }

  /** The target's list stays in front; what is added are strings, each once. */
  ghost predicate Extends(r: seq<Json>, into: seq<Json>) {
    && into <= r
    && forall i, j :: 0 <= i < j < |r| && |into| <= j ==> r[j].Str? && r[i] != r[j]
  }

  lemma {:induction false} UnionExtends(into: seq<Json>, from: seq<Json>)
    ensures Extends(UnionRequired(into, from), into)
    decreases |from|
  {
    hide Extends;
    if from == [] {
      ExtendsSelf(into);
    } else if from[0].Str? && from[0] !in into {
      UnionExtends(into + [from[0]], from[1..]);
      ExtendsMore(UnionRequired(into, from), into, from[0]);
    } else {
      UnionExtends(into, from[1..]);
    }
  }

  lemma ExtendsSelf(into: seq<Json>)
    ensures Extends(into, into)
  {
  }

  lemma ExtendsMore(r: seq<Json>, into: seq<Json>, item: Json)
    requires item.Str? && item !in into && Extends(r, into + [item])
    ensures Extends(r, into)
  {
    assert r[..|into| + 1] == into + [item];
    assert into == r[..|into|];
    assert r[|into|] == item;
  }

  /** Merging adds exactly the source's names, keeps the target's own values,
      takes the others from the source, and leaves the target's allOf and every
      other field alone. */
  lemma MergeAdds(target: Schema, source: Schema)
    ensures var r := Merge(target, source);
      && Props(r) == Props(source) + Props(target)
      && Items(r) == Items(target)
      && (forall m :: Marked(r, m) <==> Marked(target, m) || Marked(source, m))
      && Extends(Required(r), Required(target))
      && ("additionalProperties" in r <==> "additionalProperties" in target || "additionalProperties" in source)
      && ("additionalProperties" in r ==>
            r["additionalProperties"] == (if "additionalProperties" in target then target else source)["additionalProperties"])
      && (forall key :: key !in {"properties", "required", "additionalProperties"} ==>
            (key in r <==> key in target) && (key in r ==> r[key] == target[key]))
  {
    hide MergeProperties, MergeRequired, MergeAdditional, Props, Required, Items, UnionRequired;
    MergeElsewhere(target, source);
    var r1 := MergeProperties(target, source);
    var r2 := MergeRequired(r1, source);
    var r := MergeAdditional(r2, source);
    PropertiesMerged(target, source);
    RequiredMerged(r1, source);
    AdditionalMerged(r2, source);
    UnionExtends(Required(target), Required(source));
    forall m ensures Marked(r, m) <==> Marked(target, m) || Marked(source, m) {
      match m
      case Property(k) =>
      case RequiredName(k) => UnionHolds(Required(target), Required(source), k);
    }
  }

  lemma PropertiesMerged(target: Schema, source: Schema)
    ensures var r := MergeProperties(target, source);
      Props(r) == Props(source) + Props(target) && Required(r) == Required(target) && Items(r) == Items(target)
  {
    DistinctKeys();
  }

  lemma RequiredMerged(target: Schema, source: Schema)
    ensures var r := MergeRequired(target, source);
      && Required(r) == UnionRequired(Required(target), Required(source))
      && Props(r) == Props(target) && Items(r) == Items(target)
  {
    DistinctKeys();
  }

  lemma AdditionalMerged(target: Schema, source: Schema)
    ensures var r := MergeAdditional(target, source);
      Required(r) == Required(target) && Props(r) == Props(target) && Items(r) == Items(target)
  {
    DistinctKeys();
  }

  lemma MergeElsewhere(target: Schema, source: Schema)
    ensures var r := Merge(target, source);
      && (ADDITIONAL in r <==> ADDITIONAL in target || ADDITIONAL in source)
      && (ADDITIONAL in r ==> r[ADDITIONAL] == if ADDITIONAL in target then target[ADDITIONAL] else source[ADDITIONAL])
      && (forall key :: key != PROPERTIES && key != REQUIRED && key != ADDITIONAL ==>
            (key in r <==> key in target) && (key in r ==> r[key] == target[key]))
  {
    hide Props, Required, UnionRequired;
    DistinctKeys();
  }

  // ----- one definition

  /** The item is a reference to a local definition, and to which one. */
  predicate IsLocalRef(item: Json) {
    item.Object? && REF in item.fields && item.fields[REF].Str? && PREFIX <= item.fields[REF].text
  }

  function RefName(item: Json): string {
    if IsLocalRef(item) then item.fields[REF].text[|PREFIX|..] else ""
  }

  predicate IsSchema(defs: Definitions, name: string) {
    name in defs && defs[name].Object?
  }

  function SchemaOf(defs: Definitions, name: string): Schema {
    if IsSchema(defs, name) then defs[name].fields else map[]
  }

  function ItemsOf(defs: Definitions, name: string): seq<Json> { Items(SchemaOf(defs, name)) }
  function PropsOf(defs: Definitions, name: string): map<string, Json> { Props(SchemaOf(defs, name)) }

  /** The item can be merged now: its target is a schema without allOf. */
  predicate Ready(defs: Definitions, item: Json) {
    IsLocalRef(item) && IsSchema(defs, RefName(item)) && ItemsOf(defs, RefName(item)) == []
  }

  function Absorb(defs: Definitions, s: Schema, items: seq<Json>): Schema
    decreases |items|
  {
    if items == [] then s
    else if Ready(defs, items[0]) then Absorb(defs, Merge(s, SchemaOf(defs, RefName(items[0]))), items[1..])
    else Absorb(defs, s, items[1..])
  }

  function Remaining(defs: Definitions, items: seq<Json>): (r: seq<Json>)
    ensures |r| <= |items|
  {
    if items == [] then []
    else if Ready(defs, items[0]) then Remaining(defs, items[1..])
    else [items[0]] + Remaining(defs, items[1..])
  }

  function WithItems(s: Schema, items: seq<Json>): Schema {
    if items == [] then s - {ALL_OF} else s[ALL_OF := List(items)]
  }

  /** The definition has an allOf and properties of its own, and some item is ready. */
  predicate Flattens(defs: Definitions, name: string) {
    && ItemsOf(defs, name) != []
    && PropsOf(defs, name) != map[]
    && |Remaining(defs, ItemsOf(defs, name))| < |ItemsOf(defs, name)|
  }

  function FlattenOne(defs: Definitions, name: string): Definitions {
    if !Flattens(defs, name) then defs
    else
      var items := ItemsOf(defs, name);
      defs[name := Object(WithItems(Absorb(defs, SchemaOf(defs, name), items), Remaining(defs, items)))]
  }

  function Pass(defs: Definitions, names: seq<string>): Definitions
    decreases |names|
  {
    if names == [] then defs else Pass(FlattenOne(defs, names[0]), names[1..])
  }

  /** The source's loop: at most `bound` passes, stopping when one changes nothing. */
  function Flatten(defs: Definitions, names: seq<string>, bound: nat): Definitions
    decreases bound
  {
    if bound == 0 then defs
    else
      var next := Pass(defs, names);
      if Quiet(defs, names) then next else Flatten(next, names, bound - 1)
  }

  /** No definition flattens during the pass: the source's `changed` stays false. */
  predicate Quiet(defs: Definitions, names: seq<string>) {
    names == [] || (!Flattens(defs, names[0]) && Quiet(defs, names[1..]))
  }

  const MAX_PASSES := 32

  /** An item can be merged exactly when it refers, under the definitions' prefix, to
      a definition that is an object without allOf items. */
  lemma ReadyMeans(defs: Definitions, item: Json)
    ensures Ready(defs, item) <==> exists target ::
      && item.Object? && "$ref" in item.fields && item.fields["$ref"] == Str("#/definitions/" + target)
      && target in defs && defs[target].Object?
      && !("allOf" in defs[target].fields && defs[target].fields["allOf"].List? && defs[target].fields["allOf"].items != [])
  {
    if IsLocalRef(item) {
      var text := item.fields[REF].text;
      assert text == PREFIX + RefName(item);
      assert forall target :: text == "#/definitions/" + target ==> target == text[|PREFIX|..];
    } else {
      assert forall target :: PREFIX <= "#/definitions/" + target;
    }
  }

  /** A definition flattens exactly when it is an object with properties of its own
      and an allOf one of whose items can be merged. */
  lemma FlattensMeans(defs: Definitions, name: string)
    ensures Flattens(defs, name) <==>
      && name in defs && defs[name].Object?
      && var s := defs[name].fields;
      && "properties" in s && s["properties"].Object? && s["properties"].fields != map[]
      && "allOf" in s && s["allOf"].List? && exists item :: item in s["allOf"].items && Ready(defs, item)
  {
    hide Ready;
    RemainingShorter(defs, ItemsOf(defs, name));
  }

  // ----- what one step does

  lemma {:induction false} RemainingIs(defs: Definitions, items: seq<Json>)
    ensures forall it :: it in Remaining(defs, items) <==> it in items && !Ready(defs, it)
  {
    if items != [] {
      RemainingIs(defs, items[1..]);
      assert items == [items[0]] + items[1..];
    }
  }

  lemma {:induction false} RemainingShorter(defs: Definitions, items: seq<Json>)
    ensures |Remaining(defs, items)| == |items| <==> forall it :: it in items ==> !Ready(defs, it)
    ensures |Remaining(defs, items)| == |items| ==> Remaining(defs, items) == items
  {
    if items != [] {
      RemainingShorter(defs, items[1..]);
      assert items == [items[0]] + items[1..];
    }
  }

  /** Absorbing keeps what is there and adds the names of exactly the ready targets. */
  lemma {:induction false} AbsorbAdds(defs: Definitions, s: Schema, items: seq<Json>)
    ensures var r := Absorb(defs, s, items);
      && Items(r) == Items(s)
      && (forall k :: k in Props(s) ==> k in Props(r) && Props(r)[k] == Props(s)[k])
      && (forall m :: Marked(r, m) <==>
            Marked(s, m) || exists it :: it in items && Ready(defs, it) && Marked(SchemaOf(defs, RefName(it)), m))
      && (forall k :: k in Props(r) && k !in Props(s) ==>
            exists it :: it in items && Ready(defs, it)
              && k in PropsOf(defs, RefName(it)) && Props(r)[k] == PropsOf(defs, RefName(it))[k])
    decreases |items|
  {
    hide Merge, Ready, Marked, Props, Items;
    if items != [] {
      assert items == [items[0]] + items[1..];
      if Ready(defs, items[0]) {
        var source := SchemaOf(defs, RefName(items[0]));
        MergeAdds(s, source);
        AbsorbAdds(defs, Merge(s, source), items[1..]);
      } else {
        AbsorbAdds(defs, s, items[1..]);
      }
    }
  }

  lemma WithItemsKeeps(s: Schema, items: seq<Json>)
    ensures var r := WithItems(s, items);
      Items(r) == items && Props(r) == Props(s) && forall m :: Marked(r, m) <==> Marked(s, m)
  {
    DistinctKeys();
    var r := WithItems(s, items);
    assert Props(r) == Props(s) && Required(r) == Required(s);
  }

  /** A name the schema does not have is taken from the first ready item that has it. */
  ghost predicate FirstWith(defs: Definitions, items: seq<Json>, i: nat, k: string) {
    && i < |items| && Ready(defs, items[i]) && k in PropsOf(defs, RefName(items[i]))
    && forall j :: 0 <= j < i && Ready(defs, items[j]) ==> k !in PropsOf(defs, RefName(items[j]))
  }

  lemma {:induction false} FirstWins(defs: Definitions, s: Schema, items: seq<Json>, i: nat, k: string)
    requires FirstWith(defs, items, i, k) && k !in Props(s)
    ensures var r := Absorb(defs, s, items); k in Props(r) && Props(r)[k] == PropsOf(defs, RefName(items[i]))[k]
    decreases |items|
  {
    hide Merge, Ready, Props, Items, RefName;
    var target := RefName(items[0]);
    if i == 0 {
      var merged := Merge(s, SchemaOf(defs, target));
      MergeAdds(s, SchemaOf(defs, target));
      AbsorbAdds(defs, merged, items[1..]);
    } else {
      assert items[1..][i - 1] == items[i];
      assert forall j :: 0 <= j < i - 1 ==> items[1..][j] == items[j + 1];
      if Ready(defs, items[0]) {
        MergeAdds(s, SchemaOf(defs, target));
        FirstWins(defs, Merge(s, SchemaOf(defs, target)), items[1..], i - 1, k);
      } else {
        FirstWins(defs, s, items[1..], i - 1, k);
      }
    }
  }

  /** So it is when a definition is flattened; and it keeps an allOf only if items
      are left. */
  lemma FlattenedValues(defs: Definitions, name: string, i: nat, k: string)
    requires Flattens(defs, name) && FirstWith(defs, ItemsOf(defs, name), i, k) && k !in PropsOf(defs, name)
    ensures var after := FlattenOne(defs, name);
      && k in PropsOf(after, name)
      && PropsOf(after, name)[k] == PropsOf(defs, RefName(ItemsOf(defs, name)[i]))[k]
      && ItemsOf(after, name) == Remaining(defs, ItemsOf(defs, name))
      && ("allOf" in SchemaOf(after, name) <==> ItemsOf(after, name) != [])
  {
    hide Ready, RefName, Props, Items, Absorb, WithItems;
    var items := ItemsOf(defs, name);
    var absorbed := Absorb(defs, SchemaOf(defs, name), items);
    FirstWins(defs, SchemaOf(defs, name), items, i, k);
    WithItemsKeeps(absorbed, Remaining(defs, items));
    AllOfLeft(absorbed, Remaining(defs, items));
  }

  lemma AllOfLeft(s: Schema, items: seq<Json>)
    ensures "allOf" in WithItems(s, items) <==> items != []
  {
  }

  ghost predicate MarkedByReady(defs: Definitions, name: string, m: Mark) {
    exists it :: it in ItemsOf(defs, name) && Ready(defs, it) && Marked(SchemaOf(defs, RefName(it)), m)
  }

  /** Everything later proofs use about one definition being flattened. */
  ghost predicate Step(a: Definitions, b: Definitions, name: string) {
    && a.Keys == b.Keys
    && (forall x :: IsSchema(a, x) <==> IsSchema(b, x))
    && (forall x :: x != name ==> SchemaOf(a, x) == SchemaOf(b, x))
    && (forall it :: it in ItemsOf(b, name) <==> it in ItemsOf(a, name) && !Ready(a, it))
    && (forall k :: k in PropsOf(a, name) ==> k in PropsOf(b, name) && PropsOf(b, name)[k] == PropsOf(a, name)[k])
    && (forall m :: Marked(SchemaOf(b, name), m)
          <==> Marked(SchemaOf(a, name), m) || MarkedByReady(a, name, m))
    && (forall k :: k in PropsOf(b, name) && k !in PropsOf(a, name) ==>
          exists it :: it in ItemsOf(a, name) && Ready(a, it)
            && k in PropsOf(a, RefName(it)) && PropsOf(b, name)[k] == PropsOf(a, RefName(it))[k])
  }

  lemma FlattenOneSteps(defs: Definitions, name: string)
    ensures Flattens(defs, name) ==> Step(defs, FlattenOne(defs, name), name)
    ensures Flattens(defs, name) ==> |ItemsOf(FlattenOne(defs, name), name)| < |ItemsOf(defs, name)|
  {
    hide Step, ItemsOf, Remaining, Absorb;
    if Flattens(defs, name) {
      FlattenedSteps(defs, name);
    }
  }

  lemma FlattenedSteps(defs: Definitions, name: string)
    requires Flattens(defs, name)
    ensures Step(defs, FlattenOne(defs, name), name)
    ensures |ItemsOf(FlattenOne(defs, name), name)| < |ItemsOf(defs, name)|
  {
    hide Ready, Marked, Props, Absorb, WithItems, Remaining, Items;
    OnlySchemasFlatten(defs, name);
    var items, schema := ItemsOf(defs, name), SchemaOf(defs, name);
    var absorbed, left := Absorb(defs, schema, items), Remaining(defs, items);
    AbsorbAdds(defs, schema, items);
    WithItemsKeeps(absorbed, left);
    RemainingIs(defs, items);
    StepFrom(defs, name, WithItems(absorbed, left), items, absorbed);
  }

  /** Replacing one schema is a step once the new schema is as described. */
  lemma StepFrom(defs: Definitions, name: string, result: Schema, items: seq<Json>, absorbed: Schema)
    requires IsSchema(defs, name) && items == ItemsOf(defs, name)
    requires Props(result) == Props(absorbed) && forall m :: Marked(result, m) <==> Marked(absorbed, m)
    requires forall it :: it in Items(result) <==> it in items && !Ready(defs, it)
    requires forall k :: k in PropsOf(defs, name) ==> k in Props(absorbed) && Props(absorbed)[k] == PropsOf(defs, name)[k]
    requires forall m :: Marked(absorbed, m) <==> Marked(SchemaOf(defs, name), m) || MarkedByReady(defs, name, m)
    requires forall k :: k in Props(absorbed) && k !in PropsOf(defs, name) ==>
      exists it :: it in items && Ready(defs, it)
        && k in PropsOf(defs, RefName(it)) && Props(absorbed)[k] == PropsOf(defs, RefName(it))[k]
    ensures Step(defs, defs[name := Object(result)], name)
  {
    hide Ready, Marked, Props, Items, RefName;
  }

  lemma OnlySchemasFlatten(defs: Definitions, name: string)
    requires Flattens(defs, name)
    ensures IsSchema(defs, name)
  {
  }

  // ----- a pass, and passes

  function Total(defs: Definitions, names: seq<string>): nat {
    if names == [] then 0 else |ItemsOf(defs, names[0])| + Total(defs, names[1..])
  }

  /** The names are exactly the definitions, each once. */
  ghost predicate Lists(names: seq<string>, defs: Definitions) {
    && (forall x :: x in names <==> x in defs)
    && NoRepeats(names)
  }

  /** `b` has come out of `a` by flattening: the same schemas, fewer items. */
  ghost predicate Later(a: Definitions, b: Definitions) {
    && a.Keys == b.Keys
    && (forall x :: IsSchema(a, x) <==> IsSchema(b, x))
    && (forall x, it :: it in ItemsOf(b, x) ==> it in ItemsOf(a, x))
    && (forall x, k :: k in PropsOf(a, x) ==> k in PropsOf(b, x) && PropsOf(b, x)[k] == PropsOf(a, x)[k])
  }

  lemma StepIsLater(a: Definitions, b: Definitions, name: string)
    requires Step(a, b, name)
    ensures Later(a, b)
  {
    forall x, it | it in ItemsOf(b, x) ensures it in ItemsOf(a, x) {
      if x != name {
        assert SchemaOf(a, x) == SchemaOf(b, x);
      }
    }
    forall x, k | k in PropsOf(a, x) ensures k in PropsOf(b, x) && PropsOf(b, x)[k] == PropsOf(a, x)[k] {
      if x != name {
        assert SchemaOf(a, x) == SchemaOf(b, x);
      }
    }
  }

  lemma LaterTwice(a: Definitions, b: Definitions, c: Definitions)
    requires Later(a, b) && Later(b, c)
    ensures Later(a, c)
  {
    hide ItemsOf, PropsOf, IsSchema;
  }

  lemma LaterSelf(a: Definitions)
    ensures Later(a, a)
  {
  }

  lemma OneIsLater(defs: Definitions, name: string)
    ensures Later(defs, FlattenOne(defs, name))
  {
    hide Step, Later;
    FlattenOneSteps(defs, name);
    if Flattens(defs, name) {
      StepIsLater(defs, FlattenOne(defs, name), name);
    } else {
      LaterSelf(defs);
    }
  }

  lemma {:induction false} PassIsLater(defs: Definitions, names: seq<string>)
    ensures Later(defs, Pass(defs, names))
    decreases |names|
  {
    hide Later, FlattenOne;
    if names == [] {
      LaterSelf(defs);
    } else {
      OneIsLater(defs, names[0]);
      PassIsLater(FlattenOne(defs, names[0]), names[1..]);
      LaterTwice(defs, FlattenOne(defs, names[0]), Pass(defs, names));
    }
  }

  lemma {:induction false} TotalFalls(a: Definitions, b: Definitions, names: seq<string>, name: string)
    requires forall x :: x != name ==> ItemsOf(a, x) == ItemsOf(b, x)
    requires |ItemsOf(b, name)| < |ItemsOf(a, name)|
    ensures Total(b, names) <= Total(a, names)
    ensures name in names ==> Total(b, names) < Total(a, names)
  {
    hide ItemsOf;
    if names != [] {
      TotalFalls(a, b, names[1..], name);
    }
  }

  lemma OneFalls(defs: Definitions, name: string, all: seq<string>)
    ensures Total(FlattenOne(defs, name), all) <= Total(defs, all)
    ensures Flattens(defs, name) && name in all ==> Total(FlattenOne(defs, name), all) < Total(defs, all)
    ensures !Flattens(defs, name) ==> FlattenOne(defs, name) == defs
  {
    hide Flattens, Remaining, Absorb;
    FlattenOneSteps(defs, name);
    if Flattens(defs, name) {
      forall x | x != name ensures ItemsOf(defs, x) == ItemsOf(FlattenOne(defs, name), x) {
        assert SchemaOf(defs, x) == SchemaOf(FlattenOne(defs, name), x);
      }
      TotalFalls(defs, FlattenOne(defs, name), all, name);
    }
  }

  /** A pass either changes nothing or strictly lowers the total number of allOf
      items; and `changed` is false exactly when nothing changes. */
  lemma {:induction false} PassFalls(defs: Definitions, names: seq<string>, all: seq<string>)
    requires forall x :: x in names ==> x in all
    ensures Total(Pass(defs, names), all) <= Total(defs, all)
    ensures Quiet(defs, names) ==> Pass(defs, names) == defs
    ensures !Quiet(defs, names) ==> Total(Pass(defs, names), all) < Total(defs, all)
    decreases |names|
  {
    hide FlattenOne, Flattens, Total;
    if names != [] {
      assert names[0] in all;
      assert forall x :: x in names[1..] ==> x in names;
      OneFalls(defs, names[0], all);
      PassFalls(FlattenOne(defs, names[0]), names[1..], all);
    }
  }

  function Passes(defs: Definitions, names: seq<string>, n: nat): Definitions
    decreases n
  {
    if n == 0 then defs else Passes(Pass(defs, names), names, n - 1)
  }

  /** Stopping early changes nothing: the source's loop does what `bound` whole
      passes would do. */
  lemma {:induction false} EarlyExitIsFree(defs: Definitions, names: seq<string>, bound: nat)
    ensures Flatten(defs, names, bound) == Passes(defs, names, bound)
    decreases bound
  {
    hide Pass, Quiet;
    if bound > 0 {
      PassFalls(defs, names, names);
      if Quiet(defs, names) {
        QuietForever(defs, names, bound - 1);
      } else {
        EarlyExitIsFree(Pass(defs, names), names, bound - 1);
      }
    }
  }

  lemma {:induction false} QuietForever(defs: Definitions, names: seq<string>, n: nat)
    requires Pass(defs, names) == defs
    ensures Passes(defs, names, n) == defs
    decreases n
  {
    if n > 0 {
      QuietForever(defs, names, n - 1);
    }
  }

  lemma {:induction false} PassesSplit(defs: Definitions, names: seq<string>, m: nat, n: nat)
    ensures Passes(defs, names, m + n) == Passes(Passes(defs, names, m), names, n)
    decreases m
  {
    hide Pass;
    if m > 0 {
      PassesSplit(Pass(defs, names), names, m - 1, n);
    }
  }

  lemma {:induction false} PassesAreLater(defs: Definitions, names: seq<string>, n: nat)
    ensures Later(defs, Passes(defs, names, n))
    decreases n
  {
    hide Pass, Later;
    if n == 0 {
      LaterSelf(defs);
    } else {
      PassIsLater(defs, names);
      PassesAreLater(Pass(defs, names), names, n - 1);
      LaterTwice(defs, Pass(defs, names), Passes(defs, names, n));
    }
  }

  /** The loop left by way of an unchanged pass: running it again, with any bound,
      changes nothing. */
  lemma ConvergedIsFixed(defs: Definitions, names: seq<string>, bound: nat, again: nat)
    requires Quiet(Flatten(defs, names, bound), names)
    ensures Flatten(Flatten(defs, names, bound), names, again) == Flatten(defs, names, bound)
  {
    hide Quiet, Pass;
    var end := Flatten(defs, names, bound);
    PassFalls(end, names, names);
    EarlyExitIsFree(end, names, again);
    QuietForever(end, names, again);
  }

  // ----- chains of bounded height are flattened

  /** Every allOf item is a local reference to a definition of the same kind, one
      lower, and every definition that has items has properties of its own. */
  ghost predicate Chain(defs: Definitions, x: string, height: nat)
    decreases height
  {
    && IsSchema(defs, x)
    && (ItemsOf(defs, x) != [] ==>
          && height > 0
          && PropsOf(defs, x) != map[]
          && forall it :: it in ItemsOf(defs, x) ==> IsLocalRef(it) && Chain(defs, RefName(it), height - 1))
  }

  ghost predicate Settled(start: Definitions, now: Definitions, height: nat) {
    forall x :: Chain(start, x, height) ==> ItemsOf(now, x) == []
  }

  /** Once nothing is left of an allOf, nothing comes back. */
  lemma StaysSettled(start: Definitions, a: Definitions, b: Definitions, height: nat)
    requires Settled(start, a, height) && Later(a, b)
    ensures Settled(start, b, height)
  {
    hide ItemsOf, Later, Chain;
    forall x | Chain(start, x, height) ensures ItemsOf(b, x) == [] {
      NoItemsStay(a, b, x);
    }
  }

  /** When everything one lower is settled, a chain's definition is flattened. */
  lemma ChainFlattens(start: Definitions, now: Definitions, x: string, height: nat)
    requires Later(start, now) && Settled(start, now, height) && Chain(start, x, height + 1)
    ensures ItemsOf(FlattenOne(now, x), x) == []
  {
    hide Remaining, Absorb;
    var items := ItemsOf(now, x);
    forall it | it in items ensures Ready(now, it) {
      assert it in ItemsOf(start, x);
      assert Chain(start, RefName(it), height);
    }
    RemainingShorter(now, items);
    FlattenOneSteps(now, x);
    if items != [] {
      assert items[0] in items && items[0] in ItemsOf(start, x);
      assert PropsOf(now, x) != map[] by {
        var k :| k in PropsOf(start, x);
        assert k in PropsOf(now, x);
      }
      assert Flattens(now, x);
      NoneIn(ItemsOf(FlattenOne(now, x), x));
    }
  }

  lemma {:induction false} PassSettles(start: Definitions, now: Definitions, names: seq<string>, height: nat, x: string)
    requires Later(start, now) && Settled(start, now, height)
    requires Chain(start, x, height + 1) && x in names
    ensures ItemsOf(Pass(now, names), x) == []
    decreases |names|
  {
    hide FlattenOne, Later, Settled, Chain, ItemsOf;
    var next := FlattenOne(now, names[0]);
    OneIsLater(now, names[0]);
    LaterTwice(start, now, next);
    StaysSettled(start, now, next, height);
    if names[0] == x {
      ChainFlattens(start, now, x, height);
      PassIsLater(next, names[1..]);
      NoItemsStay(next, Pass(next, names[1..]), x);
    } else {
      PassSettles(start, next, names[1..], height, x);
    }
  }

  lemma NoItemsStay(a: Definitions, b: Definitions, x: string)
    requires Later(a, b) && ItemsOf(a, x) == []
    ensures ItemsOf(b, x) == []
  {
    hide ItemsOf, IsSchema;
    NoneIn(ItemsOf(b, x));
  }

  lemma NoneIn<T>(s: seq<T>)
    ensures s != [] ==> exists x :: x in s
  {
    if s != [] {
      assert s[0] in s;
    }
  }

  lemma NothingAtZero(start: Definitions)
    ensures Settled(start, start, 0)
  {
  }

  lemma {:induction false} PassesSettle(start: Definitions, names: seq<string>, k: nat)
    requires Lists(names, start)
    ensures Settled(start, Passes(start, names, k), k)
    decreases k
  {
    hide Pass, Later, ItemsOf;
    if k == 0 {
      NothingAtZero(start);
    } else {
      PassesSettle(start, names, k - 1);
      PassesAreLater(start, names, k - 1);
      PassesSplit(start, names, k - 1, 1);
      var now := Passes(start, names, k - 1);
      forall x | Chain(start, x, k) ensures ItemsOf(Pass(now, names), x) == [] {
        assert x in names;
        PassSettles(start, now, names, k - 1, x);
      }
      assert Passes(now, names, 1) == Pass(now, names);
    }
  }

  lemma {:induction false} ChainHigher(defs: Definitions, x: string, low: nat, high: nat)
    requires Chain(defs, x, low) && low <= high
    ensures Chain(defs, x, high)
    decreases low
  {
    hide ItemsOf, PropsOf, IsSchema;
    if ItemsOf(defs, x) != [] {
      forall it | it in ItemsOf(defs, x) ensures IsLocalRef(it) && Chain(defs, RefName(it), high - 1) {
        ChainHigher(defs, RefName(it), low - 1, high - 1);
      }
    }
  }

  /** Whatever the order of the names: after pass k every definition whose allOf
      chains have height at most k has no allOf left; so the source's loop of 32
      passes flattens every chain of height at most 32. */
  lemma DepthTheorem(start: Definitions, names: seq<string>, bound: nat, x: string, height: nat)
    requires Lists(names, start) && Chain(start, x, height) && height <= bound
    ensures ItemsOf(Flatten(start, names, bound), x) == []
  {
    hide ItemsOf, Flatten, Passes;
    EarlyExitIsFree(start, names, bound);
    PassesSettle(start, names, bound);
    ChainHigher(start, x, height, bound);
  }

  // ----- and nothing else is

  ghost predicate WellFounded(defs: Definitions, x: string) {
    exists h: nat :: Chain(defs, x, h)
  }

  /** An item that is gone referred to a well-founded chain, and was merged into
      a definition that had properties from the start. */
  ghost predicate Accounted(start: Definitions, now: Definitions) {
    GoneOk(start, now) && UntouchedOk(start, now)
  }

  ghost predicate GoneOk(start: Definitions, now: Definitions) {
    forall x, it :: it in ItemsOf(start, x) && it !in ItemsOf(now, x) ==>
      IsLocalRef(it) && WellFounded(start, RefName(it))
  }

  ghost predicate UntouchedOk(start: Definitions, now: Definitions) {
    forall x :: PropsOf(start, x) == map[] ==> SchemaOf(now, x) == SchemaOf(start, x)
  }

  lemma {:induction false} CommonHeight(defs: Definitions, items: seq<Json>) returns (h: nat)
    requires forall it :: it in items ==> IsLocalRef(it) && WellFounded(defs, RefName(it))
    ensures forall it :: it in items ==> Chain(defs, RefName(it), h)
  {
    hide Chain;
    if items == [] {
      h := 0;
    } else {
      assert items == [items[0]] + items[1..];
      var rest := CommonHeight(defs, items[1..]);
      var first: nat :| Chain(defs, RefName(items[0]), first);
      h := if first > rest then first else rest;
      ChainHigher(defs, RefName(items[0]), first, h);
      forall it | it in items[1..] ensures Chain(defs, RefName(it), h) {
        ChainHigher(defs, RefName(it), rest, h);
      }
    }
  }

  /** A definition without items is the top of a well-founded chain. */
  lemma EmptyIsFounded(start: Definitions, now: Definitions, x: string)
    requires Later(start, now) && Accounted(start, now) && IsSchema(now, x) && ItemsOf(now, x) == []
    ensures WellFounded(start, x)
  {
    hide Props;
    var items := ItemsOf(start, x);
    forall it | it in items ensures IsLocalRef(it) && WellFounded(start, RefName(it)) {
      assert it !in ItemsOf(now, x);
    }
    var h := CommonHeight(start, items);
    if items != [] {
      assert PropsOf(start, x) != map[];
    }
    assert Chain(start, x, h + 1);
  }

  lemma OneAccounts(start: Definitions, now: Definitions, name: string)
    requires Later(start, now) && Accounted(start, now)
    ensures Accounted(start, FlattenOne(now, name))
  {
    hide Later, Step, Flattens, GoneOk, UntouchedOk;
    FlattenOneSteps(now, name);
    if Flattens(now, name) {
      GoneAccounted(start, now, FlattenOne(now, name), name);
      HasProps(now, name);
      UntouchedAccounted(start, now, FlattenOne(now, name), name);
    }
  }

  lemma HasProps(defs: Definitions, name: string)
    requires Flattens(defs, name)
    ensures PropsOf(defs, name) != map[]
  {
  }

  lemma GoneAccounted(start: Definitions, now: Definitions, next: Definitions, name: string)
    requires Later(start, now) && Accounted(start, now) && Step(now, next, name)
    ensures GoneOk(start, next)
  {
    hide WellFounded, IsLocalRef, ItemsOf, Later, Step;
    forall x, it | it in ItemsOf(start, x) && it !in ItemsOf(next, x)
      ensures IsLocalRef(it) && WellFounded(start, RefName(it))
    {
      StepItem(now, next, name, x, it);
      if it in ItemsOf(now, x) {
        EmptyIsFounded(start, now, RefName(it));
      }
    }
  }

  lemma UntouchedAccounted(start: Definitions, now: Definitions, next: Definitions, name: string)
    requires Accounted(start, now) && Step(now, next, name) && PropsOf(now, name) != map[]
    ensures UntouchedOk(start, next)
  {
    hide Step, Props, IsSchema;
    forall x | PropsOf(start, x) == map[] ensures SchemaOf(next, x) == SchemaOf(start, x) {
      assert SchemaOf(now, x) == SchemaOf(start, x);
      assert PropsOf(now, x) == map[];
      StepElsewhere(now, next, name, x);
    }
  }

  lemma {:induction false} PassAccounts(start: Definitions, now: Definitions, names: seq<string>)
    requires Later(start, now) && Accounted(start, now)
    ensures Accounted(start, Pass(now, names))
    decreases |names|
  {
    hide Later, Accounted, FlattenOne;
    if names != [] {
      OneAccounts(start, now, names[0]);
      OneIsLater(now, names[0]);
      LaterTwice(start, now, FlattenOne(now, names[0]));
      PassAccounts(start, FlattenOne(now, names[0]), names[1..]);
    }
  }

  lemma {:induction false} PassesAccount(start: Definitions, now: Definitions, names: seq<string>, n: nat)
    requires Later(start, now) && Accounted(start, now)
    ensures Accounted(start, Passes(now, names, n))
    decreases n
  {
    hide Later, Accounted, Pass;
    if n > 0 {
      PassAccounts(start, now, names);
      PassIsLater(now, names);
      LaterTwice(start, now, Pass(now, names));
      PassesAccount(start, Pass(now, names), names, n - 1);
    }
  }

  lemma AccountedSelf(defs: Definitions)
    ensures Accounted(defs, defs)
  {
  }

  /** What flattening can do, exactly: a definition ends without allOf only if its
      chains are well-founded, and if the loop converged, whenever they are. */
  lemma FlattenedIffFounded(start: Definitions, names: seq<string>, bound: nat, x: string)
    requires Lists(names, start) && IsSchema(start, x)
    ensures ItemsOf(Flatten(start, names, bound), x) == [] ==> WellFounded(start, x)
    ensures Quiet(Flatten(start, names, bound), names) ==>
      (ItemsOf(Flatten(start, names, bound), x) == [] <==> WellFounded(start, x))
  {
    hide Accounted, ItemsOf, Chain, Quiet, Pass, Flatten, Passes;
    var end := Flatten(start, names, bound);
    EarlyExitIsFree(start, names, bound);
    PassesAreLater(start, names, bound);
    LaterSelf(start);
    AccountedSelf(start);
    PassesAccount(start, start, names, bound);
    if ItemsOf(end, x) == [] {
      EmptyIsFounded(start, end, x);
    }
    if Quiet(end, names) && WellFounded(start, x) {
      var h: nat :| Chain(start, x, h);
      PassFalls(end, names, names);
      QuietForever(end, names, h);
      PassesSplit(start, names, bound, h);
      EarlyExitIsFree(start, names, bound + h);
      DepthTheorem(start, names, bound + h, x, h);
    }
  }

  // ----- when the loop converges

  /** Every well-founded chain has at most this height. */
  ghost predicate Shallow(start: Definitions, height: nat) {
    forall x :: WellFounded(start, x) ==> Chain(start, x, height)
  }

  /** What holds of the definitions once every chain of that height is flattened. */
  ghost predicate Calm(start: Definitions, now: Definitions, height: nat) {
    Later(start, now) && Accounted(start, now) && Settled(start, now, height)
  }

  lemma CalmStep(start: Definitions, now: Definitions, height: nat, name: string)
    requires Calm(start, now, height)
    ensures Calm(start, FlattenOne(now, name), height)
  {
    hide *;
    CalmParts(start, now, height);
    OneIsLater(now, name);
    LaterTwice(start, now, FlattenOne(now, name));
    OneAccounts(start, now, name);
    StaysSettled(start, now, FlattenOne(now, name), height);
    CalmWhole(start, FlattenOne(now, name), height);
  }

  lemma CalmParts(start: Definitions, now: Definitions, height: nat)
    requires Calm(start, now, height)
    ensures Later(start, now) && Accounted(start, now) && Settled(start, now, height)
  {
  }

  lemma CalmWhole(start: Definitions, now: Definitions, height: nat)
    requires Later(start, now) && Accounted(start, now) && Settled(start, now, height)
    ensures Calm(start, now, height)
  {
  }

  /** From then on what is ready does not change. */
  lemma ReadyIsFounded(start: Definitions, now: Definitions, height: nat, it: Json)
    requires Shallow(start, height) && Calm(start, now, height)
    ensures Ready(now, it) <==> IsLocalRef(it) && WellFounded(start, RefName(it))
  {
    hide Accounted, WellFounded, IsLocalRef, RefName, ItemsOf;
    if Ready(now, it) {
      EmptyIsFounded(start, now, RefName(it));
    }
    if IsLocalRef(it) && WellFounded(start, RefName(it)) {
      assert Chain(start, RefName(it), height);
    }
  }

  lemma SettledItems(defs: Definitions, name: string)
    ensures !Flattens(defs, name) <==>
      ItemsOf(defs, name) == [] || PropsOf(defs, name) == map[] || forall it :: it in ItemsOf(defs, name) ==> !Ready(defs, it)
  {
    hide ItemsOf, PropsOf, Ready;
    RemainingShorter(defs, ItemsOf(defs, name));
  }

  /** A definition flattened then does not flatten again. */
  lemma OneQuiets(start: Definitions, now: Definitions, height: nat, name: string)
    requires Shallow(start, height) && Calm(start, now, height)
    ensures !Flattens(FlattenOne(now, name), name)
  {
    hide Shallow, Calm, Flattens, ItemsOf, PropsOf, Ready, IsLocalRef, RefName, WellFounded, Remaining, Absorb, WithItems;
    var next := FlattenOne(now, name);
    if Flattens(now, name) {
      FlattenOneSteps(now, name);
      CalmStep(start, now, height, name);
      forall it | it in ItemsOf(next, name) ensures !Ready(next, it) {
        ReadyIsFounded(start, now, height, it);
        ReadyIsFounded(start, next, height, it);
      }
      SettledItems(next, name);
    }
  }

  /** And one that does not flatten does not begin to. */
  lemma OneKeepsQuiet(start: Definitions, now: Definitions, height: nat, name: string, x: string)
    requires Shallow(start, height) && Calm(start, now, height) && !Flattens(now, x)
    ensures !Flattens(FlattenOne(now, name), x)
  {
    hide Shallow, Calm, Flattens, Ready, IsLocalRef, RefName, WellFounded, Remaining, Absorb, WithItems, Items, Props;
    var next := FlattenOne(now, name);
    if x == name {
      OneQuiets(start, now, height, name);
    } else if Flattens(now, name) {
      FlattenOneSteps(now, name);
      StepElsewhere(now, next, name, x);
      CalmStep(start, now, height, name);
      SettledItems(now, x);
      SettledItems(next, x);
      forall it ensures Ready(now, it) <==> Ready(next, it) {
        ReadyIsFounded(start, now, height, it);
        ReadyIsFounded(start, next, height, it);
      }
    }
  }

  lemma {:induction false} PassQuiets(start: Definitions, now: Definitions, height: nat, names: seq<string>, done: set<string>)
    requires Shallow(start, height) && Calm(start, now, height)
    requires forall x :: x in done ==> !Flattens(now, x)
    ensures forall x :: x in done || x in names ==> !Flattens(Pass(now, names), x)
    decreases |names|
  {
    hide Shallow, Calm, Flattens, FlattenOne;
    if names != [] {
      var next := FlattenOne(now, names[0]);
      CalmStep(start, now, height, names[0]);
      OneQuiets(start, now, height, names[0]);
      forall x | x in done ensures !Flattens(next, x) {
        OneKeepsQuiet(start, now, height, names[0], x);
      }
      PassQuiets(start, next, height, names[1..], done + {names[0]});
      assert names == [names[0]] + names[1..];
    }
  }

  lemma {:induction false} QuietIff(defs: Definitions, names: seq<string>)
    ensures Quiet(defs, names) <==> forall x :: x in names ==> !Flattens(defs, x)
  {
    hide Flattens;
    if names != [] {
      QuietIff(defs, names[1..]);
      assert names == [names[0]] + names[1..];
    }
  }

  lemma {:induction false} CalmAfter(start: Definitions, names: seq<string>, height: nat)
    requires Lists(names, start)
    ensures Calm(start, Passes(start, names, height), height)
  {
    hide Later, Accounted, Settled, Passes;
    PassesAreLater(start, names, height);
    LaterSelf(start);
    AccountedSelf(start);
    PassesAccount(start, start, names, height);
    PassesSettle(start, names, height);
  }

  /** The loop converges when every well-founded chain has a height below the bound:
      one pass more than the height finds nothing left to do. */
  lemma Converges(start: Definitions, names: seq<string>, bound: nat, height: nat)
    requires Lists(names, start) && Shallow(start, height) && height < bound
    ensures Quiet(Flatten(start, names, bound), names)
  {
    hide Calm, Shallow, Pass, Quiet, Flatten, Flattens;
    var now := Passes(start, names, height);
    CalmAfter(start, names, height);
    PassQuiets(start, now, height, names, {});
    var next := Pass(now, names);
    QuietIff(next, names);
    PassFalls(next, names, names);
    EarlyExitIsFree(start, names, bound);
    PassesSplit(start, names, height, bound - height);
    assert Passes(now, names, bound - height) == Passes(next, names, bound - height - 1);
    QuietForever(next, names, bound - height - 1);
  }

  /** So on definitions whose well-founded chains are lower than the bound, those
      that end without allOf are exactly the well-founded ones, and a further run
      changes nothing. */
  lemma FlattenedExactly(start: Definitions, names: seq<string>, bound: nat, height: nat, x: string)
    requires Lists(names, start) && Shallow(start, height) && height < bound && IsSchema(start, x)
    ensures ItemsOf(Flatten(start, names, bound), x) == [] <==> WellFounded(start, x)
    ensures forall again: nat :: Flatten(Flatten(start, names, bound), names, again) == Flatten(start, names, bound)
  {
    hide Shallow, Quiet, Flatten, ItemsOf, WellFounded;
    Converges(start, names, bound, height);
    FlattenedIffFounded(start, names, bound, x);
    forall again: nat
      ensures Flatten(Flatten(start, names, bound), names, again) == Flatten(start, names, bound)
    {
      ConvergedIsFixed(start, names, bound, again);
    }
  }

  ghost function Level(start: Definitions, height: nat): set<string> {
    set x | x in start && Chain(start, x, height)
  }

  lemma {:induction false} LevelStuck(start: Definitions, low: nat, high: nat)
    requires Level(start, low) == Level(start, low + 1) && low <= high
    ensures Level(start, high) == Level(start, low)
    decreases high
  {
    hide ItemsOf, IsLocalRef, RefName;
    if high > low {
      LevelStuck(start, low, high - 1);
      if high > low + 1 {
        LevelStuck(start, low, high - 2);
        forall x | x in start
          ensures Chain(start, x, high) ==> Chain(start, x, high - 1)
        {
          NextLevel(start, x, high - 2);
        }
      }
      forall x | x in start
        ensures Chain(start, x, high - 1) ==> Chain(start, x, high)
      {
        if Chain(start, x, high - 1) {
          ChainHigher(start, x, high - 1, high);
        }
      }
      if high == low + 1 {
      } else {
        assert Level(start, high) == Level(start, high - 1);
      }
    }
  }

  /** Two equal levels make the next one equal too. */
  lemma NextLevel(start: Definitions, x: string, height: nat)
    requires Level(start, height) == Level(start, height + 1)
    ensures Chain(start, x, height + 2) ==> Chain(start, x, height + 1)
  {
    if Chain(start, x, height + 2) && ItemsOf(start, x) != [] {
      forall it | it in ItemsOf(start, x) ensures Chain(start, RefName(it), height) {
        assert Chain(start, RefName(it), height + 1);
        InLevel(start, RefName(it), height + 1);
        InLevel(start, RefName(it), height);
      }
    }
  }

  lemma {:induction false} LevelGrows(start: Definitions, height: nat)
    ensures (exists k: nat :: k < height && Level(start, k) == Level(start, k + 1)) || |Level(start, height)| >= height
    decreases height
  {
    hide Level, Chain;
    if height > 0 {
      LevelGrows(start, height - 1);
      LevelInside(start, height - 1);
      var a, b := Level(start, height - 1), Level(start, height);
      if a != b {
        Larger(a, b);
      }
    }
  }

  lemma LevelInside(start: Definitions, height: nat)
    ensures Level(start, height) <= Level(start, height + 1) && Level(start, height) <= start.Keys
  {
    hide ItemsOf, Chain;
    forall x | x in Level(start, height) ensures x in Level(start, height + 1) {
      ChainHigher(start, x, height, height + 1);
    }
  }

  lemma Larger<T>(a: set<T>, b: set<T>)
    requires a <= b
    ensures |a| <= |b| && (a != b ==> |a| < |b|)
  {
    assert b == a + (b - a);
    assert |b| == |a| + |b - a|;
  }

  /** No well-founded chain is higher than there are definitions. */
  lemma ShallowByCount(start: Definitions)
    ensures Shallow(start, |start|)
  {
    hide Chain, Level;
    var n := |start| + 1;
    LevelGrows(start, n);
    LevelInside(start, n);
    Larger(Level(start, n), start.Keys);
    var k: nat :| k < n && Level(start, k) == Level(start, k + 1);
    forall x | WellFounded(start, x) ensures Chain(start, x, |start|) {
      var h: nat :| Chain(start, x, h);
      var top := if h < k then k else h;
      ChainHigher(start, x, h, top);
      LevelStuck(start, k, top);
      InLevel(start, x, top);
      InLevel(start, x, k);
      ChainHigher(start, x, k, |start|);
    }
  }

  lemma InLevel(start: Definitions, x: string, height: nat)
    ensures x in Level(start, height) <==> Chain(start, x, height)
  {
  }

  /** Fewer definitions than passes: then the loop flattens exactly what can be. */
  lemma FewDefinitions(start: Definitions, names: seq<string>, bound: nat, x: string)
    requires Lists(names, start) && |start| < bound && IsSchema(start, x)
    ensures Quiet(Flatten(start, names, bound), names)
    ensures ItemsOf(Flatten(start, names, bound), x) == [] <==> WellFounded(start, x)
  {
    hide Shallow, Quiet, Flatten, ItemsOf, WellFounded;
    ShallowByCount(start);
    Converges(start, names, bound, |start|);
    FlattenedExactly(start, names, bound, |start|, x);
  }

  // ----- what inheritance means is preserved

  /** `y` is reached from `x` through n local references to definitions. */
  ghost predicate Reaches(defs: Definitions, x: string, y: string, n: nat)
    decreases n
  {
    if n == 0 then x == y
    else exists it :: it in ItemsOf(defs, x) && Refers(defs, it) && Reaches(defs, RefName(it), y, n - 1)
  }

  ghost predicate Refers(defs: Definitions, it: Json) {
    IsLocalRef(it) && IsSchema(defs, RefName(it))
  }

  ghost predicate Inherits(defs: Definitions, x: string, m: Mark) {
    exists y, n: nat :: Reaches(defs, x, y, n) && Marked(SchemaOf(defs, y), m)
  }

  /** Inheritance, one reference at a time. */
  lemma InheritsStep(defs: Definitions, x: string, it: Json, m: Mark)
    requires it in ItemsOf(defs, x) && Refers(defs, it) && Inherits(defs, RefName(it), m)
    ensures Inherits(defs, x, m)
  {
    hide Marked, ItemsOf;
    var y, n: nat :| Reaches(defs, RefName(it), y, n) && Marked(SchemaOf(defs, y), m);
    assert Reaches(defs, x, y, n + 1);
  }

  lemma InheritsOwn(defs: Definitions, x: string, m: Mark)
    requires Marked(SchemaOf(defs, x), m)
    ensures Inherits(defs, x, m)
  {
    assert Reaches(defs, x, x, 0);
  }

  // What the induction below uses of a step.

  lemma StepElsewhere(a: Definitions, b: Definitions, name: string, x: string)
    requires Step(a, b, name) && x != name
    ensures SchemaOf(a, x) == SchemaOf(b, x) && ItemsOf(a, x) == ItemsOf(b, x)
  {
  }

  lemma StepRefers(a: Definitions, b: Definitions, name: string, it: Json)
    requires Step(a, b, name)
    ensures Refers(a, it) <==> Refers(b, it)
  {
    hide IsLocalRef, RefName;
  }

  lemma StepItem(a: Definitions, b: Definitions, name: string, x: string, it: Json)
    requires Step(a, b, name)
    ensures it in ItemsOf(b, x) ==> it in ItemsOf(a, x)
    ensures it in ItemsOf(a, x) ==> it in ItemsOf(b, x) || (x == name && Ready(a, it))
  {
    hide Ready;
    if x != name {
      StepElsewhere(a, b, name, x);
    }
  }

  lemma StepMark(a: Definitions, b: Definitions, name: string, x: string, m: Mark)
    requires Step(a, b, name)
    ensures Marked(SchemaOf(b, x), m) <==>
      Marked(SchemaOf(a, x), m) || (x == name && MarkedByReady(a, name, m))
  {
    hide Marked, MarkedByReady;
    if x != name {
      StepElsewhere(a, b, name, x);
    }
  }

  lemma ReachedFirst(defs: Definitions, x: string, y: string, n: nat) returns (it: Json)
    requires Reaches(defs, x, y, n) && n > 0
    ensures it in ItemsOf(defs, x) && Refers(defs, it) && Reaches(defs, RefName(it), y, n - 1)
    ensures Ready(defs, it) ==> n == 1 && y == RefName(it)
  {
    it :| it in ItemsOf(defs, x) && Refers(defs, it) && Reaches(defs, RefName(it), y, n - 1);
  }

  lemma {:induction false} StepKeepsReached(a: Definitions, b: Definitions, name: string, x: string, y: string, n: nat, m: Mark)
    requires Step(a, b, name) && Reaches(a, x, y, n) && Marked(SchemaOf(a, y), m)
    ensures Inherits(b, x, m)
    decreases n
  {
    hide Marked, Inherits, Step, Ready, Refers, ItemsOf;
    if n == 0 {
      StepMark(a, b, name, x, m);
      InheritsOwn(b, x, m);
    } else {
      var it := ReachedFirst(a, x, y, n);
      StepKeepsReached(a, b, name, RefName(it), y, n - 1, m);
      StepItem(a, b, name, x, it);
      StepRefers(a, b, name, it);
      if it in ItemsOf(b, x) {
        InheritsStep(b, x, it, m);
      } else {
        assert MarkedByReady(a, name, m);
        StepMark(a, b, name, x, m);
        InheritsOwn(b, x, m);
      }
    }
  }

  lemma {:induction false} StepAddsNothing(a: Definitions, b: Definitions, name: string, x: string, y: string, n: nat, m: Mark)
    requires Step(a, b, name) && Reaches(b, x, y, n) && Marked(SchemaOf(b, y), m)
    ensures Inherits(a, x, m)
    decreases n
  {
    hide Marked, Inherits, Step, Ready, Refers, ItemsOf, MarkedByReady;
    if n == 0 {
      StepMark(a, b, name, x, m);
      if Marked(SchemaOf(a, x), m) {
        InheritsOwn(a, x, m);
      } else {
        InheritsFromReady(a, x, m);
      }
    } else {
      var it := ReachedFirst(b, x, y, n);
      StepAddsNothing(a, b, name, RefName(it), y, n - 1, m);
      StepItem(a, b, name, x, it);
      StepRefers(a, b, name, it);
      InheritsStep(a, x, it, m);
    }
  }

  lemma InheritsFromReady(defs: Definitions, x: string, m: Mark)
    requires MarkedByReady(defs, x, m)
    ensures Inherits(defs, x, m)
  {
    hide Marked, Inherits, ItemsOf;
    var it :| it in ItemsOf(defs, x) && Ready(defs, it) && Marked(SchemaOf(defs, RefName(it)), m);
    InheritsOwn(defs, RefName(it), m);
    InheritsStep(defs, x, it, m);
  }

  /** One definition's flattening keeps, for every definition and even around
      reference cycles, exactly the names it inherits. */
  lemma StepKeepsInheritance(a: Definitions, name: string, x: string, m: Mark)
    ensures Inherits(a, x, m) <==> Inherits(FlattenOne(a, name), x, m)
  {
    hide Step, Flattens, Reaches;
    var b := FlattenOne(a, name);
    FlattenOneSteps(a, name);
    if Flattens(a, name) {
      if Inherits(a, x, m) {
        var y, n: nat :| Reaches(a, x, y, n) && Marked(SchemaOf(a, y), m);
        StepKeepsReached(a, b, name, x, y, n, m);
      }
      if Inherits(b, x, m) {
        var y, n: nat :| Reaches(b, x, y, n) && Marked(SchemaOf(b, y), m);
        StepAddsNothing(a, b, name, x, y, n, m);
      }
    }
  }

  lemma {:induction false} PassKeepsInheritance(a: Definitions, names: seq<string>, x: string, m: Mark)
    ensures Inherits(a, x, m) <==> Inherits(Pass(a, names), x, m)
    decreases |names|
  {
    hide Inherits, FlattenOne;
    if names != [] {
      StepKeepsInheritance(a, names[0], x, m);
      PassKeepsInheritance(FlattenOne(a, names[0]), names[1..], x, m);
    }
  }

  /** The whole loop, on every graph and with every order of names, keeps the set
      of property names and of required names each definition inherits. */
  lemma {:induction false} FlattenKeepsInheritance(a: Definitions, names: seq<string>, bound: nat, x: string, m: Mark)
    ensures Inherits(a, x, m) <==> Inherits(Flatten(a, names, bound), x, m)
    decreases bound
  {
    hide Inherits, Pass, Quiet;
    if bound > 0 {
      PassKeepsInheritance(a, names, x, m);
      if !Quiet(a, names) {
        FlattenKeepsInheritance(Pass(a, names), names, bound - 1, x, m);
      }
    }
  }

  /** The value is the one that some definition reached from x gave the name. */
  ghost predicate ComesFrom(start: Definitions, x: string, k: string, v: Json) {
    exists y, n: nat :: Reaches(start, x, y, n) && k in PropsOf(start, y) && PropsOf(start, y)[k] == v
  }

  ghost predicate Sourced(start: Definitions, now: Definitions) {
    forall x, k :: k in PropsOf(now, x) ==> ComesFrom(start, x, k, PropsOf(now, x)[k])
  }

  lemma ComesFromStep(start: Definitions, x: string, it: Json, k: string, v: Json)
    requires it in ItemsOf(start, x) && Refers(start, it) && ComesFrom(start, RefName(it), k, v)
    ensures ComesFrom(start, x, k, v)
  {
    hide PropsOf, ItemsOf;
    var y, n: nat :| Reaches(start, RefName(it), y, n) && k in PropsOf(start, y) && PropsOf(start, y)[k] == v;
    assert Reaches(start, x, y, n + 1);
  }

  lemma SourcedSelf(defs: Definitions)
    ensures Sourced(defs, defs)
  {
    forall x, k | k in PropsOf(defs, x) ensures ComesFrom(defs, x, k, PropsOf(defs, x)[k]) {
      assert Reaches(defs, x, x, 0);
    }
  }

  lemma StepSources(start: Definitions, now: Definitions, name: string)
    requires Later(start, now) && Sourced(start, now)
    ensures Sourced(start, FlattenOne(now, name))
  {
    hide ComesFrom, Remaining, Absorb, Marked;
    var next := FlattenOne(now, name);
    FlattenOneSteps(now, name);
    if Flattens(now, name) {
      forall x, k | k in PropsOf(next, x) ensures ComesFrom(start, x, k, PropsOf(next, x)[k]) {
        var v := PropsOf(next, x)[k];
        if x != name {
          assert SchemaOf(now, x) == SchemaOf(next, x);
          assert PropsOf(now, x)[k] == v;
        } else if k in PropsOf(now, x) {
          assert PropsOf(now, x)[k] == v;
        } else {
          var it :| it in ItemsOf(now, x) && Ready(now, it)
            && k in PropsOf(now, RefName(it)) && v == PropsOf(now, RefName(it))[k];
          assert ComesFrom(start, RefName(it), k, v);
          ComesFromStep(start, x, it, k, v);
        }
      }
    }
  }

  lemma {:induction false} PassSources(start: Definitions, now: Definitions, names: seq<string>)
    requires Later(start, now) && Sourced(start, now)
    ensures Sourced(start, Pass(now, names))
    decreases |names|
  {
    hide Later, Sourced, FlattenOne;
    if names != [] {
      StepSources(start, now, names[0]);
      OneIsLater(now, names[0]);
      LaterTwice(start, now, FlattenOne(now, names[0]));
      PassSources(start, FlattenOne(now, names[0]), names[1..]);
    }
  }

  lemma {:induction false} FlattenSources(start: Definitions, now: Definitions, names: seq<string>, bound: nat)
    requires Later(start, now) && Sourced(start, now)
    ensures Later(start, Flatten(now, names, bound)) && Sourced(start, Flatten(now, names, bound))
    decreases bound
  {
    hide Later, Sourced, Pass, Quiet;
    if bound > 0 {
      PassSources(start, now, names);
      PassIsLater(now, names);
      LaterTwice(start, now, Pass(now, names));
      if !Quiet(now, names) {
        FlattenSources(start, Pass(now, names), names, bound - 1);
      }
    }
  }

  /** A definition's own property values never change, and every value it ends up
      with is the original value of some definition it reached. */
  lemma ValuesAreOriginal(start: Definitions, names: seq<string>, bound: nat, x: string, k: string)
    ensures var end := Flatten(start, names, bound);
      && (k in PropsOf(start, x) ==> k in PropsOf(end, x) && PropsOf(end, x)[k] == PropsOf(start, x)[k])
      && (k in PropsOf(end, x) ==> ComesFrom(start, x, k, PropsOf(end, x)[k]))
  {
    hide Flatten, PropsOf, ComesFrom, ItemsOf, IsSchema;
    LaterSelf(start);
    SourcedSelf(start);
    FlattenSources(start, start, names, bound);
  }

  /** Where no allOf is left, a definition's own names are all it inherits: a
      well-founded chain within the bound ends with exactly the names that were
      reachable from it. */
  lemma FlattenedIsComplete(start: Definitions, names: seq<string>, bound: nat, x: string, height: nat, m: Mark)
    requires Lists(names, start) && Chain(start, x, height) && height <= bound
    ensures Marked(SchemaOf(Flatten(start, names, bound), x), m) <==> Inherits(start, x, m)
  {
    hide Flatten, Chain, Marked;
    var end := Flatten(start, names, bound);
    DepthTheorem(start, names, bound, x, height);
    FlattenKeepsInheritance(start, names, bound, x, m);
    if Inherits(end, x, m) {
      var y, n: nat :| Reaches(end, x, y, n) && Marked(SchemaOf(end, y), m);
      assert n == 0;
    }
    if Marked(SchemaOf(end, x), m) {
      InheritsOwn(end, x, m);
    }
  }

  // ----- the loop, in place

  class Document {
    var defs: Definitions

    constructor (defs: Definitions)
      ensures this.defs == defs
    {
      this.defs := defs;
    }

    /** mergeFrom(defs[target], defs[source]) */
    method MergeFrom(target: string, source: string)
      requires IsSchema(defs, target) && IsSchema(defs, source)
      modifies this
      ensures defs == old(defs)[target := Object(Merge(SchemaOf(old(defs), target), SchemaOf(old(defs), source)))]
    {
      var t, s := defs[target].fields, defs[source].fields;
      var sp := Props(s);
      if sp != map[] {
        var tp := Props(t);
        ghost var own := tp;
        var left := sp.Keys;
        while left != {}
          invariant left <= sp.Keys
          invariant tp == (map k | k in sp && k !in left :: sp[k]) + own
          decreases left
        {
          var k :| k in left;
          if k !in tp {
            tp := tp[k := sp[k]];
          }
          left := left - {k};
        }
        assert (map k | k in sp && k !in left :: sp[k]) == sp;
        t := t[PROPERTIES := Object(tp)];
      }
      assert t == MergeProperties(SchemaOf(old(defs), target), s);
      ghost var t1 := t;
      var sr := Required(s);
      if sr != [] {
        var tr := Required(t);
        var i := 0;
        while i < |sr|
          invariant 0 <= i <= |sr|
          invariant UnionRequired(tr, sr[i..]) == UnionRequired(Required(t), sr)
        {
          assert sr[i..][1..] == sr[i + 1..];
          if sr[i].Str? && sr[i] !in tr {
            tr := tr + [sr[i]];
          }
          i := i + 1;
        }
        t := t[REQUIRED := List(tr)];
      }
      assert t == MergeRequired(t1, s);
      if ADDITIONAL !in t && ADDITIONAL in s {
        t := t[ADDITIONAL := s[ADDITIONAL]];
      }
      defs := defs[target := Object(t)];
    }

    /** The body of the pass for one definition; tells whether it changed. */
    method FlattenDefinition(name: string) returns (changed: bool)
      modifies this
      ensures defs == FlattenOne(old(defs), name)
      ensures changed == Flattens(old(defs), name)
    {
      hide Merge, Items, Props, IsLocalRef, RefName, Absorb, Remaining;
      if !IsSchema(defs, name) {
        NotASchema(defs, name);
        return false;
      }
      ghost var start := defs;
      ghost var schema := SchemaOf(defs, name);
      var allOf := ItemsOf(defs, name);
      if allOf == [] || PropsOf(defs, name) == map[] {
        return false;
      }
      var remaining: seq<Json> := [];
      changed := false;
      ghost var merged := schema;
      var i := 0;
      assert defs == start[name := Object(merged)] && allOf[0..] == allOf;
      while i < |allOf|
        invariant 0 <= i <= |allOf|
        invariant defs == start[name := Object(merged)] && Items(merged) == allOf
        invariant Absorb(start, merged, allOf[i..]) == Absorb(start, schema, allOf)
        invariant remaining + Remaining(start, allOf[i..]) == Remaining(start, allOf)
        invariant changed <==> |remaining| < i
        invariant |remaining| <= i
        invariant !changed ==> merged == schema
      {
        var item := allOf[i];
        ItemStep(start, merged, allOf, i, remaining);
        SameReadiness(start, name, merged, item);
        if IsLocalRef(item) && IsSchema(defs, RefName(item)) && ItemsOf(defs, RefName(item)) == [] {
          assert RefName(item) != name;
          MergeLeavesItems(merged, SchemaOf(start, RefName(item)));
          MergeFrom(name, RefName(item));
          merged := Merge(merged, SchemaOf(start, RefName(item)));
          changed := true;
        } else {
          remaining := remaining + [item];
        }
        i := i + 1;
      }
      NoItemsLeft(start, merged, allOf[i..], remaining);
      if changed {
        defs := defs[name := Object(WithItems(SchemaOf(defs, name), remaining))];
      }
    }

    method FlattenAll() returns (ghost names: seq<string>)
      modifies this
      ensures Lists(names, old(defs)) && Sorted(names)
      ensures defs == Flatten(old(defs), names, 32)
    {
      hide Flattens, FlattenOne;
      ghost var start := defs;
      var first := SortedKeys(defs);
      names := first;
      var pass := 0;
      while pass < MAX_PASSES
        invariant 0 <= pass <= MAX_PASSES
        invariant defs.Keys == start.Keys
        invariant Flatten(defs, names, MAX_PASSES - pass) == Flatten(start, names, MAX_PASSES)
      {
        var changed := false;
        var order := SortedKeys(defs);
        SameListing(order, names);
        ghost var before := defs;
        var i := 0;
        while i < |order|
          invariant 0 <= i <= |order|
          invariant Pass(defs, order[i..]) == Pass(before, order)
          invariant !changed ==> defs == before && (Quiet(before, order) <==> Quiet(defs, order[i..]))
          invariant changed ==> !Quiet(before, order)
        {
          assert order[i..][1..] == order[i + 1..];
          Unflattened(defs, order[i]);
          var c := FlattenDefinition(order[i]);
          if c {
            changed := true;
          }
          i := i + 1;
        }
        assert order[i..] == [];
        PassIsLater(before, order);
        if !changed {
          return;
        }
        pass := pass + 1;
      }
    }
  }

  /** The front item is merged in, or kept. */
  lemma ItemStep(start: Definitions, s: Schema, items: seq<Json>, i: nat, kept: seq<Json>)
    requires i < |items|
    ensures var item := items[i];
      if Ready(start, item) then
        && Absorb(start, s, items[i..]) == Absorb(start, Merge(s, SchemaOf(start, RefName(item))), items[i + 1..])
        && kept + Remaining(start, items[i..]) == kept + Remaining(start, items[i + 1..])
      else
        && Absorb(start, s, items[i..]) == Absorb(start, s, items[i + 1..])
        && kept + Remaining(start, items[i..]) == (kept + [item]) + Remaining(start, items[i + 1..])
  {
    hide Ready, Merge, SchemaOf;
    assert items[i..][1..] == items[i + 1..];
  }

  lemma NoItemsLeft(start: Definitions, s: Schema, items: seq<Json>, kept: seq<Json>)
    requires items == []
    ensures Absorb(start, s, items) == s && kept + Remaining(start, items) == kept
  {
  }

  lemma MergeLeavesItems(target: Schema, source: Schema)
    ensures Items(Merge(target, source)) == Items(target)
  {
    hide *;
    MergeAdds(target, source);
  }

  lemma NotASchema(defs: Definitions, name: string)
    requires !IsSchema(defs, name)
    ensures !Flattens(defs, name)
  {
  }

  lemma Unflattened(defs: Definitions, name: string)
    ensures !Flattens(defs, name) ==> FlattenOne(defs, name) == defs
  {
  }

  /** While a definition is being merged into, its allOf still stands, so neither
      it nor anything else changes readiness. */
  lemma SameReadiness(start: Definitions, name: string, merged: Schema, item: Json)
    requires IsSchema(start, name) && Items(merged) == ItemsOf(start, name) != []
    ensures Ready(start[name := Object(merged)], item) == Ready(start, item)
    ensures Ready(start, item) ==> RefName(item) != name
  {
    hide Items;
  }
}
