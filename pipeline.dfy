/**
 * The two scripts run one after the other: the aggregator's `final` object is
 * the normaliser's `poi` object. Every aggregated entry becomes one world,
 * labelled `World ` and the entry's key, in the same order.
 */
module Pipeline {
  import opened Options
  import opened Json
  import opened Decimal
  import opened Dicts
  import opened Aggregator
  import opened Normalizer

  /**
   * Every walked file the aggregator stores, and no later file overwrites,
   * holds a cell whose kept routes point at spots. Skipped and overwritten
   * files never reach the normaliser, so they may hold anything.
   */
  ghost predicate StoredWellFormed(walk: seq<File<Cell>>) {
    forall i: nat :: IsStored(walk, FileKey, i) ==> IsWellFormed(walk[i].content)
  }

  /** The `i`-th walked file has a key and no later file has the same key. */
  predicate IsStored<V>(walk: seq<File<V>>, keyOf: string -> Option<string>, i: nat) {
    && i < |walk|
    && keyOf(walk[i].path).Some?
    && forall j :: i < j < |walk| ==> keyOf(walk[j].path) != keyOf(walk[i].path)
  }

  /** Of two files with the same key, the first is overwritten. */
  lemma FirstOfTwoOverwritten<V>(first: File<V>, second: File<V>, keyOf: string -> Option<string>)
    requires keyOf(first.path) == keyOf(second.path)
    ensures !IsStored([first, second], keyOf, 0)
  {
    var walk := [first, second];
    assert walk[0] == first && walk[1] == second;
  }

  /** A key the aggregator writes is labelled `World ` followed by the key. */
  lemma LabelOfStoredKey(area: nat, cell: nat)
    ensures HasNumericHalves(CellKey(area, cell))
    ensures WorldLabel(CellKey(area, cell)) == "World " + CellKey(area, cell)
  {
    LabelOfCellKey(area, cell);
  }

  /** The aggregated object is one the normaliser accepts, and its keys are labelled `World <key>`. */
  lemma AggregatedIsNormalizable(walk: seq<File<Cell>>)
    requires StoredWellFormed(walk)
    ensures IsNormalizable(Aggregated(walk))
    ensures forall i :: 0 <= i < |Aggregated(walk).keys| ==>
      WorldLabel(Aggregated(walk).keys[i]) == "World " + Aggregated(walk).keys[i]
  {
    var poi := Aggregated(walk);
    forall k | k in poi.fields
      ensures HasNumericHalves(k) && IsWellFormed(poi.fields[k])
    {
      StoredEntry(walk, k);
    }
    forall i | 0 <= i < |poi.keys|
      ensures WorldLabel(poi.keys[i]) == "World " + poi.keys[i]
    {
      assert poi.keys[i] in poi.fields;
      StoredEntry(walk, poi.keys[i]);
    }
  }

  /** One aggregated entry: its key is labelled `World <key>`, and its cell is one of the walked cells. */
  lemma StoredEntry(walk: seq<File<Cell>>, k: string)
    requires StoredWellFormed(walk) && k in Aggregated(walk).fields
    ensures HasNumericHalves(k) && WorldLabel(k) == "World " + k
    ensures IsWellFormed(Aggregated(walk).fields[k])
    ensures exists i :: 0 <= i < |walk| && Aggregated(walk).fields[k] == walk[i].content
  {
    AggregatedKeysAreCellKeys(walk, k);
    var area: nat, cell: nat :| k == CellKey(area, cell);
    LabelOfStoredKey(area, cell);
    var i := CollectFromLast(walk, FileKey, k);
  }

  /** An object whose keys are labelled `World <key>` normalises to one world per entry, in order. */
  lemma NormalizedPrefixed(poi: Dict<Cell>)
    requires IsNormalizable(poi)
    requires forall i :: 0 <= i < |poi.keys| ==> WorldLabel(poi.keys[i]) == "World " + poi.keys[i]
    ensures |Normalized(poi).keys| == |poi.keys|
    ensures forall i :: 0 <= i < |poi.keys| ==>
      && Normalized(poi).keys[i] == "World " + poi.keys[i]
      && Normalized(poi).fields["World " + poi.keys[i]] == Routes(poi.fields[poi.keys[i]])
  {
    var keys := poi.keys;
    assert forall i :: 0 <= i < |keys| ==> keys[i] in poi.fields;
    var routes := EntryRoutes(poi);
    RegroupPrefixed(keys, routes, WorldLabel, "World ");
    assert forall i :: 0 <= i < |keys| ==> routes[keys[i]] == Routes(poi.fields[keys[i]]);
  }

  /**
   * Normalising the aggregated object gives one world per entry, in the
   * entries' order: the `i`-th world is labelled `World ` and the `i`-th key,
   * and holds the routes of the `i`-th entry.
   */
  lemma PipelineOutput(walk: seq<File<Cell>>)
    requires StoredWellFormed(walk)
    ensures IsNormalizable(Aggregated(walk))
    ensures |Normalized(Aggregated(walk)).keys| == |Aggregated(walk).keys|
    ensures forall i :: 0 <= i < |Aggregated(walk).keys| ==>
      && Normalized(Aggregated(walk)).keys[i] == "World " + Aggregated(walk).keys[i]
      && Normalized(Aggregated(walk)).fields["World " + Aggregated(walk).keys[i]] == Routes(Aggregated(walk).fields[Aggregated(walk).keys[i]])
  {
    AggregatedIsNormalizable(walk);
    NormalizedPrefixed(Aggregated(walk));
  }

  // The worked example: one file `1_2.json`

  /** Its cell: route `a` starts at spot 0, a start spot; route `b` starts at `null`. */
  function ExampleCell(): Cell {
    Cell(map["a" := [Num(0), Num(1)], "b" := [Null]],
         [Arr([Num(0), Num(0), Str("start")]), Arr([Num(1), Num(1), Str("normal")])])
  }

  lemma ExampleRoutes()
    ensures IsWellFormed(ExampleCell())
    ensures Routes(ExampleCell()) == map["a" := [Str("Start"), Num(1)]]
  {
    var c := ExampleCell();
    assert IsStartSpot(c.spots[0]);
    assert c.route["a"][0 := Str("Start")] == [Str("Start"), Num(1)];
  }

  lemma ExampleBasename()
    ensures Basename("1_2.json") == "1_2.json"
  {
    BasenameAfterDirectory("", "1_2.json");
    assert "" + "1_2.json" == "1_2.json";
  }

  lemma ExampleName()
    ensures IsCellFileName("1_2.json", "1", "2")
  {
    assert "1" + "_" + "2" + ".json" == "1_2.json";
  }

  lemma ExampleNumbers()
    ensures ValueOf("1") == 1 && ValueOf("2") == 2
    ensures CellKey(1, 2) == "1-2"
  {
    assert ("1")[..0] == "" && ("2")[..0] == "";
  }

  lemma ExampleKey()
    ensures FileKey("1_2.json") == Some("1-2")
  {
    ExampleBasename();
    ExampleName();
    FileKeyOfMatch("1_2.json", "1", "2");
    ExampleNumbers();
  }

  /** The aggregated entry `"1-2"` is the file's content verbatim. */
  lemma ExampleAggregated()
    ensures Aggregated([File("1_2.json", ExampleCell())]) == Dict(["1-2"], map["1-2" := ExampleCell()])
  {
    ExampleKey();
    var walk := [File("1_2.json", ExampleCell())];
    assert walk[..0] == [];
  }

  /** Of two files with the same key, only the later one has to hold a well-formed cell. */
  lemma OverwrittenFileIgnored(first: File<Cell>, second: File<Cell>)
    requires FileKey(first.path) == FileKey(second.path)
    requires IsWellFormed(second.content)
    ensures StoredWellFormed([first, second])
  {
    var walk := [first, second];
    FirstOfTwoOverwritten(first, second, FileKey);
    forall i: nat | IsStored(walk, FileKey, i)
      ensures IsWellFormed(walk[i].content)
    {
      assert i != 0;
      assert walk[i] == second;
    }
  }

  lemma ExampleKeyIn(dir: string)
    ensures FileKey(dir + "/" + "1_2.json") == Some("1-2")
  {
    ExampleKey();
    FileKeyIgnoresDirectory(dir, "1_2.json");
  }

  /**
   * A malformed `1_2.json` in one directory that a `1_2.json` in another
   * overwrites never reaches the normaliser: the walk meets the pipeline's
   * precondition.
   */
  lemma ExampleOverwritten(dir1: string, dir2: string)
    ensures !IsWellFormed(Cell(map["x" := [Num(5)]], []))
    ensures StoredWellFormed([File(dir1 + "/" + "1_2.json", Cell(map["x" := [Num(5)]], [])), File(dir2 + "/" + "1_2.json", ExampleCell())])
  {
    var bad := Cell(map["x" := [Num(5)]], []);
    assert !PointsAtSpot(bad.route["x"], bad.spots);
    ExampleKeyIn(dir1);
    ExampleKeyIn(dir2);
    ExampleRoutes();
    OverwrittenFileIgnored(File(dir1 + "/" + "1_2.json", bad), File(dir2 + "/" + "1_2.json", ExampleCell()));
  }

  /** The output is `{"World 1-2": {"a": ["Start", 1]}}`: route `b` is dropped. */
  lemma ExampleNormalized()
    ensures IsNormalizable(Dict(["1-2"], map["1-2" := ExampleCell()]))
    ensures Normalized(Dict(["1-2"], map["1-2" := ExampleCell()])) ==
      Dict(["World 1-2"], map["World 1-2" := map["a" := [Str("Start"), Num(1)]]])
  {
    ExampleRoutes();
    LabelOfStoredKey(1, 2);
    ExampleNumbers();
    assert WorldLabel("1-2") == "World " + "1-2";
    assert "World " + "1-2" == "World 1-2";
    NormalizedSingle("1-2", ExampleCell());
  }
}
