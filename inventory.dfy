/**
 * get_item_counts: joins the assets of a Steam inventory payload with their
 * descriptions and counts one unit per asset under its market_hash_name.
 */
module Inventory {
  import opened Wrappers
  import opened Json

  /** The lookup key of an asset or a description: `(str(classid), str(instanceid))`. */
  type Key = (string, string)

  /** `str(o.get("classid"))`: a missing class id reads as "None". */
  function ClassText(o: Object): string {
    PyStr(Get(o, "classid", Null))
  }

  /** `str(o.get("instanceid", "0"))`. */
  function InstanceText(o: Object): string {
    PyStr(Get(o, "instanceid", Text("0")))
  }

  function KeyOf(o: Object): Key {
    (ClassText(o), InstanceText(o))
  }

  /**
   * The decoded inventory JSON: its "assets" and "descriptions" arrays, each
   * element an object. A payload without one of the keys has the empty sequence.
   */
  datatype Payload = Payload(assets: seq<Object>, descriptions: seq<Object>)

  // ---------------------------------------------------------------------------
  // Description lookup

  /** `desc_map` after the first loop: each description stored under its key, in order. */
  function DescMap(ds: seq<Object>): map<Key, Object> {
    if ds == [] then map[]
    else DescMap(ds[..|ds| - 1])[KeyOf(ds[|ds| - 1]) := ds[|ds| - 1]]
  }

  /** The index of the last description with key k: an independent reading of "the later one wins". */
  function LastWithKey(ds: seq<Object>, k: Key): (r: Option<nat>)
    ensures r.None? ==> forall j :: 0 <= j < |ds| ==> KeyOf(ds[j]) != k
    ensures r.Some? ==> r.value < |ds| && KeyOf(ds[r.value]) == k
    ensures r.Some? ==> forall j :: r.value < j < |ds| ==> KeyOf(ds[j]) != k
  {
    if ds == [] then None
    else if KeyOf(ds[|ds| - 1]) == k then Some(|ds| - 1)
    else LastWithKey(ds[..|ds| - 1], k)
  }

  /** A key is in the map exactly when some description has it, and it maps to the last of them. */
  lemma {:induction false} DescMapLastWins(ds: seq<Object>, k: Key)
    ensures k in DescMap(ds) <==> LastWithKey(ds, k).Some?
    ensures k in DescMap(ds) ==> DescMap(ds)[k] == ds[LastWithKey(ds, k).value]
  {
    if ds != [] {
      DescMapLastWins(ds[..|ds| - 1], k);
    }
  }

  /** The first index at or after i whose description has class id cls. */
  function FirstWithClass(ds: seq<Object>, cls: string, i: nat): (r: Option<nat>)
    requires i <= |ds|
    ensures r.None? ==> forall j :: i <= j < |ds| ==> ClassText(ds[j]) != cls
    ensures r.Some? ==> i <= r.value < |ds| && ClassText(ds[r.value]) == cls
    ensures r.Some? ==> forall j :: i <= j < r.value ==> ClassText(ds[j]) != cls
    decreases |ds| - i
  {
    if i == |ds| then None
    else if ClassText(ds[i]) == cls then Some(i)
    else FirstWithClass(ds, cls, i + 1)
  }

  /** `next((x for x in descriptions if str(x.get("classid")) == cls), None)`. */
  function ClassFallback(ds: seq<Object>, cls: string): Option<Object> {
    match FirstWithClass(ds, cls, 0)
    case None => None
    case Some(j) => Some(ds[j])
  }

  /** The generator scan of the fallback, stopping at the first description with the class id. */
  method NextWithClass(ds: seq<Object>, cls: string) returns (r: Option<Object>)
    ensures r == ClassFallback(ds, cls)
  {
    var i := 0;
    while i < |ds|
      invariant 0 <= i <= |ds|
      invariant FirstWithClass(ds, cls, 0) == FirstWithClass(ds, cls, i)
    {
      if ClassText(ds[i]) == cls {
        return Some(ds[i]);
      }
      i := i + 1;
    }
    return None;
  }

  /**
   * The description an asset resolves to: the one stored under its exact key,
   * unless that is missing or an empty object, in which case the first
   * description with the same class id.
   */
  function Resolve(ds: seq<Object>, a: Object): Option<Object> {
    var descMap := DescMap(ds);
    if KeyOf(a) in descMap && descMap[KeyOf(a)] != map[] then Some(descMap[KeyOf(a)])
    else ClassFallback(ds, ClassText(a))
  }

  /** The lookup restated on the positions of the descriptions: last exact match, else first by class. */
  lemma ResolveByPosition(ds: seq<Object>, a: Object)
    ensures var exact := LastWithKey(ds, KeyOf(a));
            Resolve(ds, a)
              == if exact.Some? && ds[exact.value] != map[] then Some(ds[exact.value])
                 else match FirstWithClass(ds, ClassText(a), 0)
                      case None => None
                      case Some(j) => Some(ds[j])
  {
    DescMapLastWins(ds, KeyOf(a));
  }

  /** The market_hash_name the asset is counted under, or None when it is skipped. */
  function NameOf(ds: seq<Object>, a: Object): Option<string> {
    match Resolve(ds, a)
    case None => None
    case Some(d) =>
      if d == map[] then None
      else
        var name := Get(d, "market_hash_name", Null);
        if Truthy(name) then Some(name.text) else None
  }

  /** The name of each asset, in order. */
  function AssetNames(inv: Payload): (ns: seq<Option<string>>)
    ensures |ns| == |inv.assets|
  {
    seq(|inv.assets|, i requires 0 <= i < |inv.assets| => NameOf(inv.descriptions, inv.assets[i]))
  }

  /** A skipped asset has no description, or one whose name is absent, null or empty. */
  lemma SkippedAssets(ds: seq<Object>, a: Object)
    ensures NameOf(ds, a).None? <==>
      || Resolve(ds, a).None?
      || Resolve(ds, a).value == map[]
      || !Truthy(Get(Resolve(ds, a).value, "market_hash_name", Null))
  {
  }

  // ---------------------------------------------------------------------------
  // Counting

  /**
   * The `counts` dict: its keys in insertion order, and the quantity of each.
   */
  datatype ItemCounts = ItemCounts(names: seq<string>, qty: map<string, nat>)
  {
    /** Keys are distinct, the order lists exactly the keys, and every stored count is at least 1. */
    predicate WellFormed() {
      && (forall i, j :: 0 <= i < j < |names| ==> names[i] != names[j])
      && (forall n :: n in qty ==> n in names)
      && (forall i :: 0 <= i < |names| ==> names[i] in qty)
      && (forall n :: n in qty ==> qty[n] >= 1)
    }

    /** `counts.get(n, 0)`. */
    function Count(n: string): nat {
      if n in qty then qty[n] else 0
    }
  }

  /** `counts[name] = counts.get(name, 0) + 1`. */
  function Add(c: ItemCounts, n: string): (r: ItemCounts)
    ensures r.Count(n) == c.Count(n) + 1
    ensures forall m :: m != n ==> r.Count(m) == c.Count(m)
  {
    if n in c.qty then ItemCounts(c.names, c.qty[n := c.qty[n] + 1])
    else ItemCounts(c.names + [n], c.qty[n := 1])
  }

  /** The counts after the names ns have been seen in order; None is a skipped asset. */
  function Tally(ns: seq<Option<string>>): ItemCounts {
    if ns == [] then ItemCounts([], map[])
    else
      var c := Tally(ns[..|ns| - 1]);
      match ns[|ns| - 1]
      case None => c
      case Some(n) => Add(c, n)
  }

  lemma AddWellFormed(c: ItemCounts, n: string)
    requires c.WellFormed()
    ensures Add(c, n).WellFormed()
  {
    if n !in c.qty {
      var names := c.names + [n];
      forall i, j | 0 <= i < j < |names| ensures names[i] != names[j] {
        if j == |c.names| {
          assert names[i] == c.names[i];
        }
      }
    }
  }

  /** The counts `get_item_counts` builds are well formed: in particular no stored count is 0. */
  lemma {:induction false} TallyWellFormed(ns: seq<Option<string>>)
    ensures Tally(ns).WellFormed()
  {
    if ns != [] {
      TallyWellFormed(ns[..|ns| - 1]);
      if ns[|ns| - 1].Some? {
        AddWellFormed(Tally(ns[..|ns| - 1]), ns[|ns| - 1].value);
      }
    }
  }

  /** Every name is counted exactly as often as it occurs; skipped assets count under no name. */
  lemma {:induction false} TallyCount(ns: seq<Option<string>>, n: string)
    ensures Tally(ns).Count(n) == multiset(ns)[Some(n)]
  {
    if ns != [] {
      var init := ns[..|ns| - 1];
      TallyCount(init, n);
      assert ns == init + [ns[|ns| - 1]];
      assert multiset(ns) == multiset(init) + multiset{ns[|ns| - 1]};
    }
  }

  /** The sum of the quantities of the names ns, read from q. */
  function SumOver(ns: seq<string>, q: map<string, nat>): nat {
    if ns == [] then 0
    else SumOver(ns[..|ns| - 1], q) + (if ns[|ns| - 1] in q then q[ns[|ns| - 1]] else 0)
  }

  /** The total number of units counted. */
  function Total(c: ItemCounts): nat {
    SumOver(c.names, c.qty)
  }

  lemma {:induction false} SumOverIgnores(ns: seq<string>, q: map<string, nat>, n: string, v: nat)
    requires n !in ns
    ensures SumOver(ns, q[n := v]) == SumOver(ns, q)
  {
    if ns != [] {
      SumOverIgnores(ns[..|ns| - 1], q, n, v);
    }
  }

  lemma {:induction false} SumOverBump(ns: seq<string>, q: map<string, nat>, n: string)
    requires n in q && n in ns
    requires forall i, j :: 0 <= i < j < |ns| ==> ns[i] != ns[j]
    ensures SumOver(ns, q[n := q[n] + 1]) == SumOver(ns, q) + 1
  {
    var init := ns[..|ns| - 1];
    if ns[|ns| - 1] == n {
      assert n !in init;
      SumOverIgnores(init, q, n, q[n] + 1);
    } else {
      SumOverBump(init, q, n);
    }
  }

  /** Adding a name adds one unit to the total. */
  lemma TotalAdd(c: ItemCounts, n: string)
    requires c.WellFormed()
    ensures Total(Add(c, n)) == Total(c) + 1
  {
    if n in c.qty {
      SumOverBump(c.names, c.qty, n);
    } else {
      var names := c.names + [n];
      assert names[..|names| - 1] == c.names;
      SumOverIgnores(c.names, c.qty, n, 1);
    }
  }

  /** One unit per asset that is not skipped: the total never exceeds the number of assets. */
  lemma {:induction false} TallyTotal(ns: seq<Option<string>>)
    ensures Total(Tally(ns)) == |ns| - multiset(ns)[None]
    ensures Total(Tally(ns)) <= |ns|
  {
    if ns != [] {
      var init, last := ns[..|ns| - 1], ns[|ns| - 1];
      TallyTotal(init);
      assert ns == init + [last];
      assert multiset(ns)[None] == multiset(init)[None] + (if last.None? then 1 else 0);
      if last.Some? {
        TallyWellFormed(init);
        TotalAdd(Tally(init), last.value);
      }
    }
  }

  lemma TallyStep(ns: seq<Option<string>>, k: nat)
    requires k < |ns|
    ensures Tally(ns[..k + 1]) == if ns[k].Some? then Add(Tally(ns[..k]), ns[k].value) else Tally(ns[..k])
  {
    assert ns[..k + 1][..k] == ns[..k];
  }
  /** The first loop of `get_item_counts`: store every description under its key. */
  method BuildDescMap(ds: seq<Object>) returns (descMap: map<Key, Object>)
    ensures descMap == DescMap(ds)
  {
    descMap := map[];
    var i := 0;
    while i < |ds|
      invariant 0 <= i <= |ds|
      invariant descMap == DescMap(ds[..i])
    {
      assert ds[..i + 1][..i] == ds[..i];
      descMap := descMap[KeyOf(ds[i]) := ds[i]];
      i := i + 1;
    }
    assert ds[..i] == ds;
  }

  /** The lookup of one asset: exact key first, then the class-id scan. */
  method LookUp(ds: seq<Object>, descMap: map<Key, Object>, a: Object) returns (d: Option<Object>)
    requires descMap == DescMap(ds)
    ensures d == Resolve(ds, a)
  {
    var key := KeyOf(a);
    d := if key in descMap then Some(descMap[key]) else None;
    if d.None? || d.value == map[] {
      d := NextWithClass(ds, ClassText(a));
    }
  }

  /** `get_item_counts(inv)`. */
  method GetItemCounts(inv: Payload) returns (counts: ItemCounts)
    ensures counts == Tally(AssetNames(inv))
  {
    var ds := inv.descriptions;
    var descMap := BuildDescMap(ds);
    ghost var names := AssetNames(inv);
    counts := ItemCounts([], map[]);
    var j := 0;
    while j < |inv.assets|
      invariant 0 <= j <= |inv.assets|
      invariant counts == Tally(names[..j])
    {
      var a := inv.assets[j];
      var d := LookUp(ds, descMap, a);
      var name := if d.Some? && d.value != map[] then Get(d.value, "market_hash_name", Null) else Null;
      assert names[j] == if Truthy(name) then Some(name.text) else None;
      TallyStep(names, j);
      if Truthy(name) {
        var n := name.text;
        if n in counts.qty {
          counts := counts.(qty := counts.qty[n := counts.qty[n] + 1]);
        } else {
          counts := ItemCounts(counts.names + [n], counts.qty[n := 1]);
        }
      }
      j := j + 1;
    }
    assert names[..j] == names;
  }



  /** An example payload: two descriptions and four assets. */
  predicate ExamplePayload(inv: Payload) {
    && inv.descriptions == [
      map["classid" := Text("1"), "instanceid" := Text("7"), "market_hash_name" := Text("Case")],
      map["classid" := Text("2"), "market_hash_name" := Text("Key")]]
    && inv.assets == [
      map["classid" := Text("1"), "instanceid" := Text("7")],
      map["classid" := Text("2"), "instanceid" := Text("5")],
      map["classid" := Text("1")],
      map["classid" := Text("3")]]
  }

  /** Two descriptions with distinct keys give a two-entry `desc_map`. */
  lemma ExampleDescMap(ds: seq<Object>)
    requires |ds| == 2 && KeyOf(ds[0]) != KeyOf(ds[1])
    ensures DescMap(ds) == map[KeyOf(ds[0]) := ds[0], KeyOf(ds[1]) := ds[1]]
    ensures |DescMap(ds)| == 2
  {
    var first := ds[..1];
    assert first[..|first| - 1] == [];
    assert DescMap(first) == map[KeyOf(ds[0]) := ds[0]];
    assert ds[..|ds| - 1] == first;
    assert DescMap(ds).Keys == {KeyOf(ds[0]), KeyOf(ds[1])};
  }

  /**
   * The first asset hits its exact key, the second misses ("5" is not the
   * default "0") and falls back to class "2", the third finds class "1" by
   * fallback, and the fourth has no description at all.
   */
  lemma ExampleNames(inv: Payload)
    requires ExamplePayload(inv)
    ensures AssetNames(inv) == [Some("Case"), Some("Key"), Some("Case"), None]
  {
    var ds := inv.descriptions;
    ExampleDescMap(ds);
    var ns := AssetNames(inv);
    assert ns[0] == Some("Case");
    assert FirstWithClass(ds, "2", 0) == Some(1);
    assert ns[1] == Some("Key");
    assert FirstWithClass(ds, "1", 0) == Some(0);
    assert ns[2] == Some("Case");
    assert FirstWithClass(ds, "3", 0) == None;
    assert ns[3] == None;
  }

  /** Two units of "Case" and one of "Key", in the order they were first seen. */
  lemma CountExample(inv: Payload)
    requires ExamplePayload(inv)
    ensures Tally(AssetNames(inv)) == ItemCounts(["Case", "Key"], map["Case" := 2, "Key" := 1])
  {
    ExampleNames(inv);
    var ns := AssetNames(inv);
    var c1 := ItemCounts(["Case"], map["Case" := 1]);
    var c2 := ItemCounts(["Case", "Key"], map["Case" := 1, "Key" := 1]);
    var c3 := ItemCounts(["Case", "Key"], map["Case" := 2, "Key" := 1]);
    assert Tally(ns[..0]) == ItemCounts([], map[]);
    TallyStep(ns, 0);
    assert Tally(ns[..1]) == c1;
    TallyStep(ns, 1);
    assert Tally(ns[..2]) == c2;
    TallyStep(ns, 2);
    assert Tally(ns[..3]) == c3;
    TallyStep(ns, 3);
    assert ns[..4] == ns;
  }
}
