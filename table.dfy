/**
 * The periodic table of lib/table.js: a symbol-keyed map filled once by a
 * loop over the element dataset, read through `Get` and a frozen `Size`.
 */
module PeriodicTable {
  import opened Wrappers

  /** One dataset record: `{name, symbol, atomicNumber, mass}`. */
  datatype Element = Element(name: string, symbol: string, atomicNumber: nat, mass: real)

  /** The map the construction loop has built after visiting `ds` in order. */
  function BuildMap(ds: seq<Element>): (m: map<string, Element>)
    ensures forall s | s in m :: m[s].symbol == s
    ensures |m| <= |ds|
    decreases |ds|
  {
    if ds == [] then map[]
    else BuildMap(ds[..|ds| - 1])[ds[|ds| - 1].symbol := ds[|ds| - 1]]
  }

  /** The symbols occurring in the dataset. */
  ghost function DatasetSymbols(ds: seq<Element>): set<string>
  {
    set i | 0 <= i < |ds| :: ds[i].symbol
  }

  /** Whether `s` is the symbol of some dataset record. */
  ghost predicate Listed(ds: seq<Element>, s: string)
  {
    exists i :: 0 <= i < |ds| && ds[i].symbol == s
  }

  /** The index of the last record whose symbol is `s`. */
  ghost function LastIndex(ds: seq<Element>, s: string): (k: nat)
    requires Listed(ds, s)
    ensures k < |ds| && ds[k].symbol == s
    ensures forall j :: k < j < |ds| ==> ds[j].symbol != s
    decreases |ds|
  {
    if ds[|ds| - 1].symbol == s then |ds| - 1
    else
      assert Listed(ds[..|ds| - 1], s) by {
        var i :| 0 <= i < |ds| && ds[i].symbol == s;
        assert ds[..|ds| - 1][i] == ds[i];
      }
      LastIndex(ds[..|ds| - 1], s)
  }

  /** The keys of the built map are exactly the dataset's symbols. */
  lemma {:induction false} BuildMapKeys(ds: seq<Element>)
    ensures BuildMap(ds).Keys == DatasetSymbols(ds)
    decreases |ds|
  {
    if ds != [] {
      var init := ds[..|ds| - 1];
      BuildMapKeys(init);
      assert DatasetSymbols(ds) == DatasetSymbols(init) + {ds[|ds| - 1].symbol} by {
        forall s | s in DatasetSymbols(ds) ensures s in DatasetSymbols(init) + {ds[|ds| - 1].symbol} {
          var i :| 0 <= i < |ds| && ds[i].symbol == s;
          if i < |ds| - 1 { assert init[i] == ds[i]; }
        }
        forall s | s in DatasetSymbols(init) ensures s in DatasetSymbols(ds) {
          var i :| 0 <= i < |init| && init[i].symbol == s;
          assert ds[i] == init[i];
        }
      }
    }
  }

  /**
   * Each symbol maps to the LAST record carrying it: `map.set` overwrites,
   * so a later duplicate wins.
   */
  lemma {:induction false} BuildMapLastWins(ds: seq<Element>, s: string)
    requires Listed(ds, s)
    ensures s in BuildMap(ds) && BuildMap(ds)[s] == ds[LastIndex(ds, s)]
    decreases |ds|
  {
    var init := ds[..|ds| - 1];
    if ds[|ds| - 1].symbol != s {
      var i :| 0 <= i < |ds| && ds[i].symbol == s;
      assert init[i] == ds[i];
      BuildMapLastWins(init, s);
    }
  }

  /** Every record found under `s` carries the symbol `s`. */
  lemma BuildMapSymbol(ds: seq<Element>, s: string)
    requires s in BuildMap(ds)
    ensures BuildMap(ds)[s].symbol == s
    ensures Listed(ds, s)
  {
    BuildMapKeys(ds);
    assert s in DatasetSymbols(ds);
    var i :| 0 <= i < |ds| && ds[i].symbol == s;
    BuildMapLastWins(ds, s);
  }

  /** There are never more distinct symbols than records. */
  lemma {:induction false} SymbolsBound(ds: seq<Element>)
    ensures |DatasetSymbols(ds)| <= |ds|
    decreases |ds|
  {
    if ds != [] {
      var init := ds[..|ds| - 1];
      SymbolsBound(init);
      assert DatasetSymbols(ds) <= DatasetSymbols(init) + {ds[|ds| - 1].symbol} by {
        forall s | s in DatasetSymbols(ds) ensures s in DatasetSymbols(init) + {ds[|ds| - 1].symbol} {
          var i :| 0 <= i < |ds| && ds[i].symbol == s;
          if i < |ds| - 1 { assert init[i] == ds[i]; }
        }
      }
      var last := ds[|ds| - 1].symbol;
      if last in DatasetSymbols(init) {
        assert DatasetSymbols(init) + {last} == DatasetSymbols(init);
      } else {
        assert |DatasetSymbols(init) + {last}| == |DatasetSymbols(init)| + 1;
      }
      SubsetCardinality(DatasetSymbols(ds), DatasetSymbols(init) + {last});
    }
  }

  lemma SubsetCardinality<T>(a: set<T>, b: set<T>)
    requires a <= b
    ensures |a| <= |b|
  {
    assert b == a + (b - a);
  }

  /**
   * The table. Both fields are constants: nothing can modify the map or the
   * size once the constructor has returned.
   */
  class Table {
    /** The dataset the table was built from. */
    ghost const dataset: seq<Element>
    const entries: map<string, Element>
    const Size: nat

    ghost predicate Valid()
    {
      entries == BuildMap(dataset) && Size == |entries|
    }

    /** Fills the map by a loop over the dataset, then freezes its size. */
    constructor (elements: seq<Element>)
      ensures dataset == elements && Valid()
    {
      var m: map<string, Element> := map[];
      var i := 0;
      while i < |elements|
        invariant 0 <= i <= |elements|
        invariant m == BuildMap(elements[..i])
      {
        assert elements[..i + 1][..i] == elements[..i];
        m := m[elements[i].symbol := elements[i]];
        i := i + 1;
      }
      assert elements[..i] == elements;
      dataset := elements;
      entries := m;
      Size := |m|;
    }

    /** The record stored under `symbol`, or `None` (`undefined`). */
    function Get(symbol: string): (r: Option<Element>)
      requires Valid()
      ensures r.Some? <==> Listed(dataset, symbol)
      ensures r.Some? ==> r.value.symbol == symbol
      ensures r.Some? ==> r.value == dataset[LastIndex(dataset, symbol)]
    {
      if symbol in entries then
        BuildMapSymbol(dataset, symbol);
        BuildMapLastWins(dataset, symbol);
        Some(entries[symbol])
      else
        assert !Listed(dataset, symbol) by {
          if Listed(dataset, symbol) { BuildMapLastWins(dataset, symbol); }
        }
        None
    }

    /** `size` counts the distinct symbols, never more than the records. */
    lemma SizeIsDistinctSymbols()
      requires Valid()
      ensures Size == |DatasetSymbols(dataset)| <= |dataset|
    {
      BuildMapKeys(dataset);
      assert |entries| == |entries.Keys|;
      SymbolsBound(dataset);
    }
  }
}
