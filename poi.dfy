/**
 * The aggregator (poi.js): every walked file whose base name is
 * `<digits>_<digits>.json` is stored under the key `"<area>-<cell>"`, the two
 * numbers printed back in decimal; a later file with the same key replaces
 * an earlier one.
 */
module Aggregator {
  import opened Options
  import opened Text
  import opened Decimal
  import opened Dicts

  /** One result of the directory walk: its path and its parsed content. */
  datatype File<V> = File(path: string, content: V)

  /** `p` without its trailing slashes. */
  function StripTrailingSlashes(p: string): (q: string)
    ensures |q| <= |p| && q == p[..|q|]
    ensures forall i :: |q| <= i < |p| ==> p[i] == '/'
    ensures |q| == 0 || q[|q| - 1] != '/'
  {
    if |p| > 0 && p[|p| - 1] == '/' then StripTrailingSlashes(p[..|p| - 1]) else p
  }

  /** The longest suffix of `p` without a slash. */
  function LastSegment(p: string): (s: string)
    ensures |s| <= |p| && s == p[|p| - |s|..]
    ensures '/' !in s
    ensures |s| < |p| ==> p[|p| - |s| - 1] == '/'
  {
    if |p| == 0 || p[|p| - 1] == '/' then [] else LastSegment(p[..|p| - 1]) + [p[|p| - 1]]
  }

  /** `path.basename(p)` with POSIX separators. */
  function Basename(p: string): (name: string)
    ensures '/' !in name
  {
    LastSegment(StripTrailingSlashes(p))
  }

  /** `name` is `a + "_" + b + ".json"` for two nonempty digit strings: a match of `^(\d+)_(\d+)\.json$`. */
  ghost predicate IsCellFileName(name: string, a: string, b: string) {
    a != [] && b != [] && IsDigits(a) && IsDigits(b) && name == a + "_" + b + ".json"
  }

  /** `name.match(/^(\d+)_(\d+)\.json$/)`: the two captured groups, or `None` for `null`. */
  function MatchCellFile(name: string): (m: Option<(string, string)>)
    ensures m.Some? ==> IsDigits(m.value.0) && IsDigits(m.value.1)
  {
    if |name| < 5 || name[|name| - 5..] != ".json" then None
    else
      var stem := name[..|name| - 5];
      var i := IndexOf(stem, '_');
      if 0 < i && i + 1 < |stem| && IsDigits(stem[..i]) && IsDigits(stem[i + 1..])
      then Some((stem[..i], stem[i + 1..]))
      else None
  }

  /** The template `${area}-${cell}`. */
  function CellKey(area: nat, cell: nat): string {
    Print(area) + "-" + Print(cell)
  }

  /** The key a walked path is stored under, or `None` when the aggregator skips it. */
  function FileKey(path: string): Option<string>
  {
    match MatchCellFile(Basename(path))
    case None => None
    case Some(groups) => Some(CellKey(ValueOf(groups.0), ValueOf(groups.1)))
  }

  /**
   * The object built by storing, in walk order, the content of every file
   * whose path has a key under that key. The aggregator uses `FileKey`; the
   * facts below hold for every key function.
   */
  function Collect<V>(walk: seq<File<V>>, keyOf: string -> Option<string>): (final: Dict<V>)
    ensures final.Valid()
    decreases |walk|
  {
    if walk == [] then Empty()
    else
      var final := Collect(walk[..|walk| - 1], keyOf);
      var f := walk[|walk| - 1];
      match keyOf(f.path)
      case None => final
      case Some(k) => final.Put(k, f.content)
  }

  /** The aggregated object, `final`, after the files of `walk`. */
  function Aggregated<V>(walk: seq<File<V>>): Dict<V> {
    Collect(walk, FileKey)
  }

  /** The loop of poi.js over the walked files. */
  method Aggregate<V>(walk: seq<File<V>>) returns (final: Dict<V>)
    ensures final == Aggregated(walk)
  {
    final := Empty();
    for i := 0 to |walk|
      invariant final == Collect(walk[..i], FileKey)
    {
      var m := MatchCellFile(Basename(walk[i].path));
      if m == None {
        CollectStep(walk, FileKey, i);
        continue;
      }
      var area := ValueOf(m.value.0);
      var cell := ValueOf(m.value.1);
      CollectStep(walk, FileKey, i);
      final := final.Put(CellKey(area, cell), walk[i].content);
    }
    assert walk[..|walk|] == walk;
  }

  /** One more walked file: skipped without a key, stored under its key otherwise. */
  lemma CollectStep<V>(walk: seq<File<V>>, keyOf: string -> Option<string>, i: nat)
    requires i < |walk|
    ensures keyOf(walk[i].path).None? ==> Collect(walk[..i + 1], keyOf) == Collect(walk[..i], keyOf)
    ensures keyOf(walk[i].path).Some? ==>
      Collect(walk[..i + 1], keyOf) == Collect(walk[..i], keyOf).Put(keyOf(walk[i].path).value, walk[i].content)
  {
    assert walk[..i + 1][..i] == walk[..i];
  }

  // Matching a file name

  /** The pattern test accepts exactly the names `<digits>_<digits>.json`, and captures the two digit strings. */
  lemma MatchCellFileIff(name: string, a: string, b: string)
    ensures MatchCellFile(name) == Some((a, b)) <==> IsCellFileName(name, a, b)
  {
    if MatchCellFile(name) == Some((a, b)) {
      var stem := name[..|name| - 5];
      assert name == stem + ".json";
      assert stem == a + "_" + b;
    }
    if IsCellFileName(name, a, b) {
      var stem := a + "_" + b;
      assert name == stem + ".json";
      assert name[..|name| - 5] == stem;
      assert '_' !in a;
      IndexOfAfterPrefix(a, '_', b);
      assert stem[..|a|] == a && stem[|a| + 1..] == b;
    }
  }

  /** Names the walk may hold beside the data files are skipped. */
  lemma OtherNamesSkipped()
    ensures MatchCellFile("final.json") == None
    ensures MatchCellFile("a_1.json") == None
    ensures MatchCellFile("1_2.json.bak") == None
    ensures MatchCellFile("1-2.json") == None
    ensures MatchCellFile("1_.json") == None
  {
    if MatchCellFile("final.json") != None {
      var g := MatchCellFile("final.json").value;
      MatchCellFileIff("final.json", g.0, g.1);
    }
    if MatchCellFile("a_1.json") != None {
      var g := MatchCellFile("a_1.json").value;
      MatchCellFileIff("a_1.json", g.0, g.1);
    }
    assert ("1_2.json.bak")[7..][4] == 'k';
    var stem := ("1-2.json")[..3];
    assert stem == "1-2";
    assert IndexOf(stem, '_') == 3;
  }

  // Base names and keys

  /** The base name is the last component, whatever directories come before it. */
  lemma {:induction false} BasenameAfterDirectory(dir: string, name: string)
    requires name != [] && '/' !in name
    requires dir == [] || dir[|dir| - 1] == '/'
    ensures Basename(dir + name) == name
  {
    var p := dir + name;
    assert p[|p| - 1] == name[|name| - 1];
    var q := StripTrailingSlashes(p);
    assert q == p;
    var s := LastSegment(p);
    assert s == p[|dir|..];
  }

  /** Only the base name is matched: directory components never matter. */
  lemma FileKeyIgnoresDirectory(dir: string, name: string)
    requires name != [] && '/' !in name
    ensures FileKey(dir + "/" + name) == FileKey(name)
  {
    BasenameAfterDirectory(dir + "/", name);
    BasenameAfterDirectory([], name);
    assert [] + name == name;
  }

  /** A path is kept exactly when its base name matches, under the key printed from the two numbers. */
  lemma FileKeyIff(path: string, key: string)
    ensures FileKey(path) == Some(key) <==>
      exists a, b :: IsCellFileName(Basename(path), a, b) && key == CellKey(ValueOf(a), ValueOf(b))
  {
    var name := Basename(path);
    var m := MatchCellFile(name);
    if m.Some? {
      MatchCellFileIff(name, m.value.0, m.value.1);
    }
    forall a, b | IsCellFileName(name, a, b)
      ensures m == Some((a, b))
    {
      MatchCellFileIff(name, a, b);
    }
  }

  /** A path whose base name matches is stored under the key printed from the two numbers. */
  lemma FileKeyOfMatch(path: string, a: string, b: string)
    requires IsCellFileName(Basename(path), a, b)
    ensures FileKey(path) == Some(CellKey(ValueOf(a), ValueOf(b)))
  {
    MatchCellFileIff(Basename(path), a, b);
  }

  /** `<a>_<b>.json` for digit strings `a` and `b` is a matching base name. */
  lemma CellFileName(a: string, b: string)
    requires a != [] && b != [] && IsDigits(a) && IsDigits(b)
    ensures '/' !in a + "_" + b + ".json"
    ensures IsCellFileName(a + "_" + b + ".json", a, b)
  {
  }

  /** The file `<dir>/<a>_<b>.json` is stored under the key printed from the numbers `a` and `b` denote. */
  lemma CellFileKey(dir: string, a: string, b: string)
    requires a != [] && b != [] && IsDigits(a) && IsDigits(b)
    ensures FileKey(dir + "/" + (a + "_" + b + ".json")) == Some(CellKey(ValueOf(a), ValueOf(b)))
  {
    var name := a + "_" + b + ".json";
    CellFileName(a, b);
    BasenameAfterDirectory(dir + "/", name);
    FileKeyOfMatch(dir + "/" + name, a, b);
  }

  /**
   * Leading zeros are dropped from the key: a name whose digit groups carry
   * extra leading zeros is stored under the same key as the name without them.
   */
  lemma LeadingZerosDropped(dir: string, za: string, a: string, zb: string, b: string)
    requires forall i :: 0 <= i < |za| ==> za[i] == '0'
    requires forall i :: 0 <= i < |zb| ==> zb[i] == '0'
    requires a != [] && b != [] && IsDigits(a) && IsDigits(b)
    ensures FileKey(dir + "/" + ((za + a) + "_" + (zb + b) + ".json")) == FileKey(dir + "/" + (a + "_" + b + ".json"))
  {
    LeadingZeros(za, a);
    LeadingZeros(zb, b);
    CellFileKey(dir, za + a, zb + b);
    CellFileKey(dir, a, b);
  }

  /** Splitting a key at its dash and reading both halves gives back the two numbers. */
  lemma CellKeyRoundTrip(area: nat, cell: nat)
    ensures |Split(CellKey(area, cell), '-')| == 2
    ensures IsDigits(Split(CellKey(area, cell), '-')[0]) && IsDigits(Split(CellKey(area, cell), '-')[1])
    ensures ValueOf(Split(CellKey(area, cell), '-')[0]) == area && ValueOf(Split(CellKey(area, cell), '-')[1]) == cell
  {
    var a, b := Print(area), Print(cell);
    assert '-' !in a && '-' !in b;
    SplitTwo(a, '-', b);
    ValueOfPrint(area);
    ValueOfPrint(cell);
  }

  /** Distinct pairs of numbers get distinct keys. */
  lemma CellKeyInjective(area: nat, cell: nat, area': nat, cell': nat)
    requires CellKey(area, cell) == CellKey(area', cell')
    ensures area == area' && cell == cell'
  {
    CellKeyRoundTrip(area, cell);
    CellKeyRoundTrip(area', cell');
  }

  /** `007_02.json` is stored under `"7-2"`. */
  lemma PaddedExample()
    ensures CellKey(ValueOf("007"), ValueOf("02")) == "7-2"
  {
    assert ValueOf("00") == 0 by { assert ("00")[..1] == "0"; }
    assert ValueOf("007") == 7 by { assert ("007")[..2] == "00"; }
    assert ValueOf("02") == 2 by { assert ("02")[..1] == "0"; }
  }

  /** The aggregator's own output, `final.json`, is never read back in, whatever directory it sits in. */
  lemma OutputNotAggregated(path: string)
    requires Basename(path) == "final.json"
    ensures FileKey(path) == None
  {
    OtherNamesSkipped();
  }

  // The aggregated object

  /** How many walked paths have a key. */
  function MatchingCount<V>(walk: seq<File<V>>, keyOf: string -> Option<string>): nat
  {
    if walk == [] then 0
    else MatchingCount(walk[..|walk| - 1], keyOf) + (if keyOf(walk[|walk| - 1].path).Some? then 1 else 0)
  }

  /** A key is present exactly when some walked path produces it. */
  lemma {:induction false} CollectKeys<V>(walk: seq<File<V>>, keyOf: string -> Option<string>, k: string)
    ensures k in Collect(walk, keyOf).fields <==> exists i :: 0 <= i < |walk| && keyOf(walk[i].path) == Some(k)
    decreases |walk|
  {
    if walk != [] {
      var init := walk[..|walk| - 1];
      CollectKeys(init, keyOf, k);
      assert forall i :: 0 <= i < |init| ==> init[i] == walk[i];
      if k in Collect(walk, keyOf).fields && keyOf(walk[|walk| - 1].path) != Some(k) {
        var i :| 0 <= i < |init| && keyOf(init[i].path) == Some(k);
        assert keyOf(walk[i].path) == Some(k);
      }
    }
  }

  /** The file last in walk order among those with key `k` supplies its content; earlier content is discarded. */
  lemma {:induction false} CollectLastWins<V>(walk: seq<File<V>>, keyOf: string -> Option<string>, i: nat, k: string)
    requires i < |walk| && keyOf(walk[i].path) == Some(k)
    requires forall j :: i < j < |walk| ==> keyOf(walk[j].path) != Some(k)
    ensures k in Collect(walk, keyOf).fields && Collect(walk, keyOf).fields[k] == walk[i].content
    decreases |walk|
  {
    var init := walk[..|walk| - 1];
    if i < |walk| - 1 {
      assert forall j :: i < j < |init| ==> init[j] == walk[j];
      CollectLastWins(init, keyOf, i, k);
    }
  }

  /** Every entry holds the content of the last walked file with its key; `i` is that file. */
  lemma CollectFromLast<V>(walk: seq<File<V>>, keyOf: string -> Option<string>, k: string) returns (i: nat)
    requires k in Collect(walk, keyOf).fields
    ensures i < |walk| && keyOf(walk[i].path) == Some(k) && Collect(walk, keyOf).fields[k] == walk[i].content
    ensures forall j :: i < j < |walk| ==> keyOf(walk[j].path) != Some(k)
  {
    CollectKeys(walk, keyOf, k);
    var first :| 0 <= first < |walk| && keyOf(walk[first].path) == Some(k);
    i := LastWithKey(walk, keyOf, k, first);
    CollectLastWins(walk, keyOf, i, k);
  }

  /** The last walked path with key `k`, at or after `first`. */
  lemma LastWithKey<V>(walk: seq<File<V>>, keyOf: string -> Option<string>, k: string, first: nat) returns (i: nat)
    requires first < |walk| && keyOf(walk[first].path) == Some(k)
    ensures first <= i < |walk| && keyOf(walk[i].path) == Some(k)
    ensures forall j :: i < j < |walk| ==> keyOf(walk[j].path) != Some(k)
  {
    i := |walk| - 1;
    while keyOf(walk[i].path) != Some(k)
      invariant first <= i < |walk|
      invariant forall j :: i < j < |walk| ==> keyOf(walk[j].path) != Some(k)
      decreases i
    {
      i := i - 1;
    }
  }

  /** When no two paths share a key, there is one entry per path with a key. */
  lemma {:induction false} CollectSize<V>(walk: seq<File<V>>, keyOf: string -> Option<string>)
    requires forall i, j :: 0 <= i < j < |walk| && keyOf(walk[i].path).Some? ==> keyOf(walk[j].path) != keyOf(walk[i].path)
    ensures |Collect(walk, keyOf).fields| == |Collect(walk, keyOf).keys| == MatchingCount(walk, keyOf)
    decreases |walk|
  {
    if walk != [] {
      var init := walk[..|walk| - 1];
      assert forall i :: 0 <= i < |init| ==> init[i] == walk[i];
      CollectSize(init, keyOf);
      var k := keyOf(walk[|walk| - 1].path);
      if k.Some? {
        CollectKeys(init, keyOf, k.value);
      }
      ValidSize(Collect(walk, keyOf));
    }
  }

  // The same facts for the aggregator's key function

  /** Every key of `final` comes from at least one matching path, and every matching path's key is present. */
  lemma AggregatedKeys<V>(walk: seq<File<V>>, k: string)
    ensures k in Aggregated(walk).fields <==> exists i :: 0 <= i < |walk| && FileKey(walk[i].path) == Some(k)
  {
    CollectKeys(walk, FileKey, k);
  }

  /** Of two matching paths with the same key, the one later in walk order wins. */
  lemma AggregatedLastWins<V>(walk: seq<File<V>>, i: nat, k: string)
    requires i < |walk| && FileKey(walk[i].path) == Some(k)
    requires forall j :: i < j < |walk| ==> FileKey(walk[j].path) != Some(k)
    ensures k in Aggregated(walk).fields && Aggregated(walk).fields[k] == walk[i].content
  {
    CollectLastWins(walk, FileKey, i, k);
  }

  /** With no two matching paths sharing a key, `final` has one entry per matching path. */
  lemma AggregatedSize<V>(walk: seq<File<V>>)
    requires forall i, j :: 0 <= i < j < |walk| && FileKey(walk[i].path).Some? ==> FileKey(walk[j].path) != FileKey(walk[i].path)
    ensures |Aggregated(walk).fields| == |Aggregated(walk).keys| == MatchingCount(walk, FileKey)
  {
    CollectSize(walk, FileKey);
  }

  /** Every entry of `final` holds the content of the last walked file with its key. */
  lemma AggregatedFromLast<V>(walk: seq<File<V>>, k: string)
    requires k in Aggregated(walk).fields
    ensures exists i ::
      && 0 <= i < |walk| && FileKey(walk[i].path) == Some(k) && Aggregated(walk).fields[k] == walk[i].content
      && forall j :: i < j < |walk| ==> FileKey(walk[j].path) != Some(k)
  {
    var i := CollectFromLast(walk, FileKey, k);
  }

  /** Every key of `final` is two numbers printed in decimal around a dash. */
  lemma AggregatedKeysAreCellKeys<V>(walk: seq<File<V>>, k: string)
    requires k in Aggregated(walk).keys
    ensures exists area: nat, cell: nat :: k == CellKey(area, cell)
  {
    AggregatedKeys(walk, k);
    var i :| 0 <= i < |walk| && FileKey(walk[i].path) == Some(k);
    var groups := MatchCellFile(Basename(walk[i].path)).value;
    assert k == CellKey(ValueOf(groups.0), ValueOf(groups.1));
  }
}
