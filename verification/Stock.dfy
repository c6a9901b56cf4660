/** The stock index: the list of (material code, quantity) records folded into
    a map from material code to quantity, and the `|| 0` lookup into it. */
module Stock {

  /** One record of the stock list: `Material` and `Stock`. */
  datatype StockEntry = StockEntry(material: string, stock: int)

  type StockMap = map<string, int>

  /** `entries.reduce((acc, s) => { acc[s.Material] = s.Stock; return acc }, {})`:
      a left fold, so each entry is written over whatever came before it. */
  function StockIndex(entries: seq<StockEntry>): (m: StockMap)
    ensures forall k :: k in m <==> exists i :: 0 <= i < |entries| && entries[i].material == k
    decreases |entries|
  {
    if entries == [] then map[]
    else
      var last := entries[|entries| - 1];
      StockIndex(entries[..|entries| - 1])[last.material := last.stock]
  }

  /** When several entries share a material code, the last of them decides its quantity. */
  lemma {:induction false} LastEntryWins(entries: seq<StockEntry>, i: int)
    requires 0 <= i < |entries|
    requires forall j :: i < j < |entries| ==> entries[j].material != entries[i].material
    ensures entries[i].material in StockIndex(entries)
    ensures StockIndex(entries)[entries[i].material] == entries[i].stock
    decreases |entries|
  {
    if i < |entries| - 1 {
      LastEntryWins(entries[..|entries| - 1], i);
    }
  }

  /** The same fold, written as the loop that writes into an accumulator object. */
  method BuildStockIndex(entries: seq<StockEntry>) returns (acc: StockMap)
    ensures acc == StockIndex(entries)
  {
    acc := map[];
    var i := 0;
    while i < |entries|
      invariant 0 <= i <= |entries|
      invariant acc == StockIndex(entries[..i])
    {
      acc := acc[entries[i].material := entries[i].stock];
      i := i + 1;
      assert entries[..i][..i - 1] == entries[..i - 1];
    }
    assert entries[..|entries|] == entries;
  }

  /** `index[key] || 0`: a quantity of 0 and a missing key both read as 0, so the
      lookup is the indexed quantity with 0 as default. Negative quantities pass through. */
  function StockOf(index: StockMap, key: string): (n: int)
    ensures n == (if key in index then index[key] else 0)
  {
    if key in index && index[key] != 0 then index[key] else 0
  }

  /** The stock read for a code is the quantity of its last entry, or 0 when no entry has that code. */
  lemma StockOfEntries(entries: seq<StockEntry>, key: string)
    ensures (forall i :: 0 <= i < |entries| ==> entries[i].material != key) ==> StockOf(StockIndex(entries), key) == 0
    ensures forall i :: 0 <= i < |entries| && entries[i].material == key
                        && (forall j :: i < j < |entries| ==> entries[j].material != key)
                        ==> StockOf(StockIndex(entries), key) == entries[i].stock
  {
    forall i | 0 <= i < |entries| && entries[i].material == key
               && (forall j :: i < j < |entries| ==> entries[j].material != key)
      ensures StockOf(StockIndex(entries), key) == entries[i].stock
    {
      LastEntryWins(entries, i);
    }
  }
}
