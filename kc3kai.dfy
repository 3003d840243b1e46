/**
 * The normaliser (kc3kai.js): for every `"<area>-<cell>"` entry of the
 * aggregated object it builds the label `World <area>-<cell>` and a map of
 * that entry's routes, without the routes whose first element is `null` or
 * missing, and with the first element replaced by `"Start"` when it points
 * at a spot whose third field is `"start"`.
 */
module Normalizer {
  import opened Options
  import opened Text
  import opened Decimal
  import opened Json
  import opened Dicts

  /** One entry of the aggregated object: its `route` object and its `spots` array. */
  datatype Cell = Cell(route: map<string, seq<Value>>, spots: seq<Value>)

  /** One world of the output: route id to route. */
  type World = map<string, seq<Value>>

  /** `r[0] == null`: the first element is `null`, or missing (`undefined`) because the route is empty. */
  predicate IsNullish(r: seq<Value>) {
    |r| == 0 || r[0] == Null
  }

  /**
   * What the script needs of a route so that `spots[r[0]][2]` does not throw:
   * a route it keeps points at an existing spot that is not `null`.
   */
  predicate PointsAtSpot(r: seq<Value>, spots: seq<Value>) {
    IsNullish(r) || (r[0].Num? && 0 <= r[0].n < |spots| && !spots[r[0].n].Null?)
  }

  predicate IsWellFormed(c: Cell) {
    forall id :: id in c.route ==> PointsAtSpot(c.route[id], c.spots)
  }

  /** `spot[2] === 'start'`. */
  predicate IsStartSpot(spot: Value)
    requires !spot.Null?
  {
    Element(spot, 2) == Some(Str("start"))
  }

  /** A kept route, with its first element replaced by `"Start"` when it points at a start spot. */
  function RewriteStart(r: seq<Value>, spots: seq<Value>): (r': seq<Value>)
    requires !IsNullish(r) && PointsAtSpot(r, spots)
    ensures |r'| == |r| && r'[1..] == r[1..]
    ensures IsStartSpot(spots[r[0].n]) ==> r'[0] == Str("Start")
    ensures !IsStartSpot(spots[r[0].n]) ==> r' == r
  {
    if IsStartSpot(spots[r[0].n]) then r[0 := Str("Start")] else r
  }

  /** The routes of one world: the kept routes under their own ids, rewritten. */
  function Routes(c: Cell): (w: World)
    requires IsWellFormed(c)
    ensures forall id :: id in w <==> id in c.route && !IsNullish(c.route[id])
    ensures forall id :: id in w ==> w[id] == RewriteStart(c.route[id], c.spots)
  {
    map id | id in c.route && !IsNullish(c.route[id]) :: RewriteStart(c.route[id], c.spots)
  }

  /** The inner loop of kc3kai.js over `Object.keys(route)`; the map it builds does not depend on the order. */
  method NormalizeRoutes(c: Cell) returns (routes: World)
    requires IsWellFormed(c)
    ensures routes == Routes(c)
  {
    routes := map[];
    var ids := c.route.Keys;
    while ids != {}
      invariant ids <= c.route.Keys
      invariant forall id :: id in routes <==> id in c.route && id !in ids && !IsNullish(c.route[id])
      invariant forall id :: id in routes ==> routes[id] == RewriteStart(c.route[id], c.spots)
      decreases ids
    {
      var id :| id in ids;
      ids := ids - {id};
      var r := c.route[id];
      if IsNullish(r) {
        continue;
      }
      if IsStartSpot(c.spots[r[0].n]) {
        r := r[0 := Str("Start")];
      }
      routes := routes[id := r];
    }
  }

  // World labels

  /** `k.split('-')` gives digit text in its first two parts, so `Number` reads them as integers. */
  predicate HasNumericHalves(k: string) {
    var parts := Split(k, '-');
    IsDigits(parts[0]) && (|parts| > 1 ==> IsDigits(parts[1]))
  }

  /**
   * `World ${area}-${cell}` with `[area, cell] = k.split('-').map(Number)`:
   * a missing second part prints as `undefined`, parts after the second are ignored.
   */
  function WorldLabel(k: string): string
    requires HasNumericHalves(k)
  {
    var parts := Split(k, '-');
    var area := Print(ValueOf(parts[0]));
    var cell := if |parts| > 1 then Print(ValueOf(parts[1])) else "undefined";
    "World " + (area + "-" + cell)
  }

  /** What the outer loop needs of the aggregated object. */
  ghost predicate IsNormalizable(poi: Dict<Cell>) {
    && poi.Valid()
    && forall k :: k in poi.fields ==> HasNumericHalves(k) && IsWellFormed(poi.fields[k])
  }

  /** The routes of every entry of the aggregated object, under the entry's own key. */
  function EntryRoutes(poi: Dict<Cell>): (routes: map<string, World>)
    requires IsNormalizable(poi)
    ensures routes.Keys == poi.fields.Keys
    ensures forall k :: k in routes ==> routes[k] == Routes(poi.fields[k])
  {
    map k | k in poi.fields :: Routes(poi.fields[k])
  }

  /**
   * The object built by storing, for each of `keys` in order, its value under
   * `labelOf` of the key. The normaliser uses `WorldLabel`; the facts below hold
   * for every label function.
   */
  function Regroup<V>(keys: seq<string>, values: map<string, V>, labelOf: string --> string): (d: Dict<V>)
    requires forall i :: 0 <= i < |keys| ==> keys[i] in values && labelOf.requires(keys[i])
    ensures d.Valid()
    decreases |keys|
  {
    if keys == [] then Empty()
    else
      var k := keys[|keys| - 1];
      Regroup(keys[..|keys| - 1], values, labelOf).Put(labelOf(k), values[k])
  }

  /** The output object `kc3`: every entry's routes, regrouped under its world label. */
  function Normalized(poi: Dict<Cell>): Dict<World>
    requires IsNormalizable(poi)
  {
    Regroup(poi.keys, EntryRoutes(poi), WorldLabel)
  }

  /** The output object after the first `n` entries. */
  function NormalizedPrefix(poi: Dict<Cell>, n: nat): Dict<World>
    requires IsNormalizable(poi) && n <= |poi.keys|
  {
    assert forall i :: 0 <= i < n ==> poi.keys[..n][i] in poi.fields;
    Regroup(poi.keys[..n], EntryRoutes(poi), WorldLabel)
  }

  /** The outer loop of kc3kai.js over `Object.keys(poi)`. */
  method Normalize(poi: Dict<Cell>) returns (kc3: Dict<World>)
    requires IsNormalizable(poi)
    ensures kc3 == Normalized(poi)
  {
    kc3 := Empty();
    for i := 0 to |poi.keys|
      invariant kc3 == NormalizedPrefix(poi, i)
    {
      var k := poi.keys[i];
      var cell := poi.fields[k];
      var world := WorldLabel(k);
      var routes := NormalizeRoutes(cell);
      NormalizeStep(poi, i);
      kc3 := kc3.Put(world, routes);
    }
    assert poi.keys[..|poi.keys|] == poi.keys;
  }

  /** One more iteration of the outer loop stores the entry's routes under its label. */
  lemma NormalizeStep(poi: Dict<Cell>, i: nat)
    requires IsNormalizable(poi) && i < |poi.keys|
    ensures poi.keys[i] in poi.fields && HasNumericHalves(poi.keys[i])
    ensures NormalizedPrefix(poi, i + 1) == NormalizedPrefix(poi, i).Put(WorldLabel(poi.keys[i]), Routes(poi.fields[poi.keys[i]]))
  {
    assert poi.keys[i] in poi.fields;
    assert forall j :: 0 <= j < |poi.keys| ==> poi.keys[j] in poi.fields;
    RegroupStep(poi.keys, EntryRoutes(poi), WorldLabel, i);
  }

  /** One more key of `keys` is stored under its label. */
  lemma RegroupStep<V>(keys: seq<string>, values: map<string, V>, labelOf: string --> string, i: nat)
    requires i < |keys|
    requires forall i :: 0 <= i < |keys| ==> keys[i] in values && labelOf.requires(keys[i])
    ensures Regroup(keys[..i + 1], values, labelOf) == Regroup(keys[..i], values, labelOf).Put(labelOf(keys[i]), values[keys[i]])
  {
    assert keys[..i + 1][..i] == keys[..i];
  }

  // Facts about labels

  /** The label of a key whose first two parts are the digit strings `a` and `b`. */
  lemma LabelOfHalves(k: string, a: string, b: string)
    requires IsDigits(a) && IsDigits(b)
    requires |Split(k, '-')| >= 2 && Split(k, '-')[0] == a && Split(k, '-')[1] == b
    ensures HasNumericHalves(k)
    ensures WorldLabel(k) == "World " + (Print(ValueOf(a)) + "-" + Print(ValueOf(b)))
  {
  }

  /** A key printed as `${area}-${cell}`, as the aggregator writes them, is labelled `World ` followed by the key itself. */
  lemma LabelOfCellKey(area: nat, cell: nat)
    ensures HasNumericHalves(Print(area) + "-" + Print(cell))
    ensures WorldLabel(Print(area) + "-" + Print(cell)) == "World " + (Print(area) + "-" + Print(cell))
  {
    var a, b := Print(area), Print(cell);
    assert '-' !in a && '-' !in b;
    SplitTwo(a, '-', b);
    ValueOfPrint(area);
    ValueOfPrint(cell);
    LabelOfHalves(a + "-" + b, a, b);
  }

  /** Leading zeros in the first half do not change the label, so `"01-2"` and `"1-2"` share one. */
  lemma LabelIgnoresLeadingZeros(zeros: string, area: nat, cell: nat)
    requires forall i :: 0 <= i < |zeros| ==> zeros[i] == '0'
    ensures HasNumericHalves(zeros + Print(area) + "-" + Print(cell)) && HasNumericHalves(Print(area) + "-" + Print(cell))
    ensures WorldLabel(zeros + Print(area) + "-" + Print(cell)) == WorldLabel(Print(area) + "-" + Print(cell))
  {
    var a, b := zeros + Print(area), Print(cell);
    LeadingZeros(zeros, Print(area));
    assert '-' !in a && '-' !in b;
    SplitTwo(a, '-', b);
    assert a + "-" + b == zeros + Print(area) + "-" + Print(cell);
    LabelOfHalves(a + "-" + b, a, b);
    SplitTwo(Print(area), '-', b);
    LabelOfHalves(Print(area) + "-" + b, Print(area), b);
  }

  /** The label of a key that does not split, whose `Number(undefined)` second half prints as `undefined`. */
  lemma LabelOfWhole(k: string)
    requires IsDigits(k) && Split(k, '-') == [k]
    ensures HasNumericHalves(k)
    ensures WorldLabel(k) == "World " + (Print(ValueOf(k)) + "-" + "undefined")
  {
  }

  /** A key without a dash has no second half, so its label ends in `-undefined`. */
  lemma LabelWithoutDash(k: string)
    requires IsDigits(k)
    ensures HasNumericHalves(k)
    ensures WorldLabel(k) == "World " + (Print(ValueOf(k)) + "-" + "undefined")
  {
    assert '-' !in k;
    SplitWithout(k, '-');
    LabelOfWhole(k);
  }

  /** Parts after the second are ignored: `"a-b-c"` is labelled as `"a-b"`. */
  lemma LabelIgnoresThirdPart(a: string, b: string, c: string)
    requires IsDigits(a) && IsDigits(b) && '-' !in c
    ensures HasNumericHalves(a + "-" + b) && HasNumericHalves(a + "-" + b + "-" + c)
    ensures WorldLabel(a + "-" + b + "-" + c) == WorldLabel(a + "-" + b)
  {
    assert '-' !in a && '-' !in b;
    SplitTwo(a, '-', b);
    SplitThree(a, '-', b, c);
    LabelOfHalves(a + "-" + b, a, b);
    LabelOfHalves(a + "-" + b + "-" + c, a, b);
  }

  // Facts about the output object

  /** The labels of `keys`, in order. */
  function Labels(keys: seq<string>, labelOf: string --> string): (names: seq<string>)
    requires forall i :: 0 <= i < |keys| ==> labelOf.requires(keys[i])
    ensures |names| == |keys|
    ensures forall i :: 0 <= i < |keys| ==> names[i] == labelOf(keys[i])
  {
    if keys == [] then [] else Labels(keys[..|keys| - 1], labelOf) + [labelOf(keys[|keys| - 1])]
  }

  /** A name is among the labels exactly when some key has it as its label. */
  lemma InLabels(keys: seq<string>, labelOf: string --> string, name: string)
    requires forall i :: 0 <= i < |keys| ==> labelOf.requires(keys[i])
    ensures name in Labels(keys, labelOf) <==> exists i :: 0 <= i < |keys| && labelOf(keys[i]) == name
  {
    var names := Labels(keys, labelOf);
    if name in names {
      var i :| 0 <= i < |names| && names[i] == name;
      assert labelOf(keys[i]) == name;
    }
  }

  /** Every input key yields an entry under its label, and every entry's label comes from an input key. */
  lemma {:induction false} RegroupKeys<V>(keys: seq<string>, values: map<string, V>, labelOf: string --> string, name: string)
    requires forall i :: 0 <= i < |keys| ==> keys[i] in values && labelOf.requires(keys[i])
    ensures name in Regroup(keys, values, labelOf).fields <==> name in Labels(keys, labelOf)
    decreases |keys|
  {
    if keys != [] {
      var init := keys[..|keys| - 1];
      RegroupKeys(init, values, labelOf, name);
      assert Labels(keys, labelOf) == Labels(init, labelOf) + [labelOf(keys[|keys| - 1])];
    }
  }

  /** When no two keys share a label, the entries follow the keys' order. */
  lemma {:induction false} RegroupInOrder<V>(keys: seq<string>, values: map<string, V>, labelOf: string --> string)
    requires forall i :: 0 <= i < |keys| ==> keys[i] in values && labelOf.requires(keys[i])
    requires forall i, j :: 0 <= i < j < |keys| ==> labelOf(keys[i]) != labelOf(keys[j])
    ensures Regroup(keys, values, labelOf).keys == Labels(keys, labelOf)
    decreases |keys|
  {
    if keys != [] {
      var n := |keys| - 1;
      var init := keys[..n];
      DistinctLabelsBefore(keys, init, labelOf);
      RegroupInOrder(init, values, labelOf);
      var name := labelOf(keys[n]);
      LabelNotEarlier(keys, labelOf);
      RegroupKeys(init, values, labelOf, name);
      PutNewKey(Regroup(init, values, labelOf), name, values[keys[n]]);
    }
  }

  /** The keys before the last one still have pairwise-distinct labels. */
  lemma DistinctLabelsBefore(keys: seq<string>, init: seq<string>, labelOf: string --> string)
    requires keys != [] && init == keys[..|keys| - 1]
    requires forall i :: 0 <= i < |keys| ==> labelOf.requires(keys[i])
    requires forall i, j :: 0 <= i < j < |keys| ==> labelOf(keys[i]) != labelOf(keys[j])
    ensures forall i :: 0 <= i < |init| ==> labelOf.requires(init[i])
    ensures forall i, j :: 0 <= i < j < |init| ==> labelOf(init[i]) != labelOf(init[j])
  {
    assert forall i :: 0 <= i < |init| ==> init[i] == keys[i];
  }

  /** With distinct labels, the last key's label is not among the labels of the keys before it. */
  lemma LabelNotEarlier(keys: seq<string>, labelOf: string --> string)
    requires keys != []
    requires forall i :: 0 <= i < |keys| ==> labelOf.requires(keys[i])
    requires forall i, j :: 0 <= i < j < |keys| ==> labelOf(keys[i]) != labelOf(keys[j])
    ensures labelOf(keys[|keys| - 1]) !in Labels(keys[..|keys| - 1], labelOf)
  {
    var n := |keys| - 1;
    var names := Labels(keys[..n], labelOf);
    forall i | 0 <= i < n
      ensures names[i] != labelOf(keys[n])
    {
      assert keys[..n][i] == keys[i];
    }
  }

  /** Of the keys sharing a label, the one latest in iteration order supplies that entry's value. */
  lemma {:induction false} RegroupLastWins<V>(keys: seq<string>, values: map<string, V>, labelOf: string --> string, i: nat)
    requires forall i :: 0 <= i < |keys| ==> keys[i] in values && labelOf.requires(keys[i])
    requires i < |keys|
    requires forall j :: i < j < |keys| ==> labelOf(keys[j]) != labelOf(keys[i])
    ensures labelOf(keys[i]) in Regroup(keys, values, labelOf).fields
    ensures Regroup(keys, values, labelOf).fields[labelOf(keys[i])] == values[keys[i]]
    decreases |keys|
  {
    var init := keys[..|keys| - 1];
    if i < |keys| - 1 {
      assert forall j :: i < j < |init| ==> init[j] == keys[j];
      RegroupLastWins(init, values, labelOf, i);
    }
  }

  /** When no two keys share a label, there is one entry per key, in the keys' order, holding that key's value. */
  lemma RegroupDistinct<V>(keys: seq<string>, values: map<string, V>, labelOf: string --> string)
    requires forall i :: 0 <= i < |keys| ==> keys[i] in values && labelOf.requires(keys[i])
    requires forall i, j :: 0 <= i < j < |keys| ==> labelOf(keys[i]) != labelOf(keys[j])
    ensures Regroup(keys, values, labelOf).keys == Labels(keys, labelOf)
    ensures forall i :: 0 <= i < |keys| ==>
      labelOf(keys[i]) in Regroup(keys, values, labelOf).fields && Regroup(keys, values, labelOf).fields[labelOf(keys[i])] == values[keys[i]]
  {
    RegroupInOrder(keys, values, labelOf);
    forall i | 0 <= i < |keys|
      ensures labelOf(keys[i]) in Regroup(keys, values, labelOf).fields && Regroup(keys, values, labelOf).fields[labelOf(keys[i])] == values[keys[i]]
    {
      RegroupLastWins(keys, values, labelOf, i);
    }
  }

  /** When every label is a fixed prefix followed by the key, the entries are the distinct keys, prefixed, in order. */
  lemma RegroupPrefixed<V>(keys: seq<string>, values: map<string, V>, labelOf: string --> string, prefix: string)
    requires forall i :: 0 <= i < |keys| ==> keys[i] in values && labelOf.requires(keys[i])
    requires forall i, j :: 0 <= i < j < |keys| ==> keys[i] != keys[j]
    requires forall i :: 0 <= i < |keys| ==> labelOf(keys[i]) == prefix + keys[i]
    ensures |Regroup(keys, values, labelOf).keys| == |keys|
    ensures forall i :: 0 <= i < |keys| ==> Regroup(keys, values, labelOf).keys[i] == prefix + keys[i]
    ensures forall i :: 0 <= i < |keys| ==>
      prefix + keys[i] in Regroup(keys, values, labelOf).fields && Regroup(keys, values, labelOf).fields[prefix + keys[i]] == values[keys[i]]
  {
    forall i, j | 0 <= i < j < |keys|
      ensures labelOf(keys[i]) != labelOf(keys[j])
    {
      assert (prefix + keys[i])[|prefix|..] == keys[i];
      assert (prefix + keys[j])[|prefix|..] == keys[j];
    }
    RegroupDistinct(keys, values, labelOf);
  }

  /** The output object has a world exactly when some entry of `poi` is labelled with its name. */
  lemma NormalizedKeys(poi: Dict<Cell>, name: string)
    requires IsNormalizable(poi)
    ensures name in Normalized(poi).fields <==>
      exists i :: 0 <= i < |poi.keys| && WorldLabel(poi.keys[i]) == name
  {
    var keys := poi.keys;
    assert forall i :: 0 <= i < |keys| ==> keys[i] in poi.fields;
    RegroupKeys(keys, EntryRoutes(poi), WorldLabel, name);
    InLabels(keys, WorldLabel, name);
  }

  /** Of the entries sharing a world label, the one latest in `poi`'s key order supplies that world's routes. */
  lemma NormalizedLastWins(poi: Dict<Cell>, i: nat)
    requires IsNormalizable(poi) && i < |poi.keys|
    requires forall j :: i < j < |poi.keys| ==> WorldLabel(poi.keys[j]) != WorldLabel(poi.keys[i])
    ensures poi.keys[i] in poi.fields && HasNumericHalves(poi.keys[i])
    ensures WorldLabel(poi.keys[i]) in Normalized(poi).fields
    ensures Normalized(poi).fields[WorldLabel(poi.keys[i])] == Routes(poi.fields[poi.keys[i]])
  {
    var keys := poi.keys;
    assert forall j :: 0 <= j < |keys| ==> keys[j] in poi.fields;
    RegroupLastWins(keys, EntryRoutes(poi), WorldLabel, i);
  }

  /** A single key leaves a single entry under its label. */
  lemma RegroupSingle<V>(k: string, values: map<string, V>, labelOf: string --> string)
    requires k in values && labelOf.requires(k)
    ensures Regroup([k], values, labelOf) == Dict([labelOf(k)], map[labelOf(k) := values[k]])
  {
    assert [k][..0] == [];
  }

  /** An object with one entry normalises to one world, under that entry's label. */
  lemma NormalizedSingle(k: string, c: Cell)
    requires HasNumericHalves(k) && IsWellFormed(c)
    ensures IsNormalizable(Dict([k], map[k := c]))
    ensures Normalized(Dict([k], map[k := c])) == Dict([WorldLabel(k)], map[WorldLabel(k) := Routes(c)])
  {
    var poi := Dict([k], map[k := c]);
    assert poi.Valid();
    RegroupSingle(k, EntryRoutes(poi), WorldLabel);
  }

  /** Two keys with one label leave a single entry, holding the later key's value. */
  lemma RegroupPair<V>(k1: string, k2: string, values: map<string, V>, labelOf: string --> string)
    requires k1 in values && k2 in values && labelOf.requires(k1) && labelOf.requires(k2)
    requires labelOf(k1) == labelOf(k2)
    ensures Regroup([k1, k2], values, labelOf) == Dict([labelOf(k2)], map[labelOf(k2) := values[k2]])
  {
    var name := labelOf(k2);
    RegroupStep([k1, k2], values, labelOf, 1);
    assert [k1, k2][..1] == [k1] && [k1, k2][..2] == [k1, k2];
    RegroupSingle(k1, values, labelOf);
    var first := Dict([name], map[name := values[k1]]);
    assert first.Put(name, values[k2]) == Dict([name], map[name := values[k2]]);
  }

  /** Two keys with the same label collapse into one world, holding the routes of the later key. */
  lemma NormalizedCollapse(k1: string, k2: string, c1: Cell, c2: Cell)
    requires k1 != k2 && HasNumericHalves(k1) && HasNumericHalves(k2) && IsWellFormed(c1) && IsWellFormed(c2)
    requires WorldLabel(k1) == WorldLabel(k2)
    ensures IsNormalizable(Dict([k1, k2], map[k1 := c1, k2 := c2]))
    ensures Normalized(Dict([k1, k2], map[k1 := c1, k2 := c2])) == Dict([WorldLabel(k2)], map[WorldLabel(k2) := Routes(c2)])
  {
    var poi := Dict([k1, k2], map[k1 := c1, k2 := c2]);
    assert poi.Valid();
    var routesOf := EntryRoutes(poi);
    RegroupPair(k1, k2, routesOf, WorldLabel);
  }
}
