/**
 * `new Compound(formula)`: normalise, validate and parse the formula, merge
 * the symbols into one entry each, resolve them against the periodic table,
 * order the entries by atomic number and sum the molar mass.
 */
module Compounds {
  import opened Wrappers
  import opened Formula
  import opened Tally
  import opened PeriodicTable

  /** One line of a compound: an element and how many atoms of it. */
  datatype Entry = Entry(element: Element, quantity: nat)

  datatype Compound = Compound(elements: seq<Entry>, molarMass: real)

  // ---------------------------------------------------------------------
  // Aggregation of the parse tree
  // ---------------------------------------------------------------------

  /**
   * Folds the terms, left to right, into one bag: a symbol adds its
   * quantity, a group adds its own bag multiplied by the group's quantity.
   */
  function Aggregate(ts: seq<Term>): (b: Bag)
    ensures Distinct(b)
    decreases ts
  {
    if ts == [] then []
    else
      var prev := Aggregate(ts[..|ts| - 1]);
      match ts[|ts| - 1]
      case Atom(x, q) => Add(prev, x, q)
      case Group(body, q) => Merge(prev, Scale(Aggregate(body), q))
  }

  /**
   * Reference count of `x` in a term list: each written symbol counts its
   * quantity times the quantities of all groups around it.
   */
  function CountOf(ts: seq<Term>, x: string): nat
    decreases ts
  {
    if ts == [] then 0
    else
      var own := match ts[0]
        case Atom(y, q) => if y == x then q else 0
        case Group(body, q) => q * CountOf(body, x);
      own + CountOf(ts[1..], x)
  }

  /** The symbols written anywhere in a term list, whatever their quantity. */
  ghost function SymbolsIn(ts: seq<Term>): set<string>
    decreases ts
  {
    if ts == [] then {}
    else
      var own := match ts[0]
        case Atom(y, _) => {y}
        case Group(body, _) => SymbolsIn(body);
      own + SymbolsIn(ts[1..])
  }

  lemma {:induction false} CountOfAppend(a: seq<Term>, b: seq<Term>, x: string)
    ensures CountOf(a + b, x) == CountOf(a, x) + CountOf(b, x)
    decreases |a|
  {
    if a == [] {
      assert a + b == b;
    } else {
      assert (a + b)[0] == a[0] && (a + b)[1..] == a[1..] + b;
      CountOfAppend(a[1..], b, x);
    }
  }

  lemma {:induction false} SymbolsInAppend(a: seq<Term>, b: seq<Term>)
    ensures SymbolsIn(a + b) == SymbolsIn(a) + SymbolsIn(b)
    decreases |a|
  {
    if a == [] {
      assert a + b == b;
    } else {
      assert (a + b)[0] == a[0] && (a + b)[1..] == a[1..] + b;
      SymbolsInAppend(a[1..], b);
    }
  }

  /**
   * Merging adds and groups multiply: the aggregate holds, for every symbol,
   * exactly its reference count.
   */
  lemma {:induction false} AggregateCounts(ts: seq<Term>, x: string)
    ensures QuantityOf(Aggregate(ts), x) == CountOf(ts, x)
    decreases ts
  {
    if ts != [] {
      var init, last := ts[..|ts| - 1], ts[|ts| - 1];
      assert ts == init + [last];
      AggregateCounts(init, x);
      CountOfAppend(init, [last], x);
      match last
      case Atom(y, q) =>
      case Group(body, q) =>
        AggregateCounts(body, x);
        ScaleQuantity(Aggregate(body), q, x);
    }
  }

  /** Every written symbol gets a part, even one whose quantity is zero. */
  lemma {:induction false} AggregateSymbols(ts: seq<Term>)
    ensures Symbols(Aggregate(ts)) == SymbolsIn(ts)
    decreases ts
  {
    if ts != [] {
      var init, last := ts[..|ts| - 1], ts[|ts| - 1];
      assert ts == init + [last];
      AggregateSymbols(init);
      SymbolsInAppend(init, [last]);
      match last
      case Atom(y, q) =>
      case Group(body, q) =>
        AggregateSymbols(body);
    }
  }

  // ---------------------------------------------------------------------
  // Resolution against the periodic table
  // ---------------------------------------------------------------------

  /** The record that stands for a symbol missing from the table. */
  function Unknown(symbol: string): (e: Element)
    ensures e.symbol == symbol
    ensures forall d: Element :: e.atomicNumber <= d.atomicNumber
    ensures forall q: nat :: EntryMass(Entry(e, q)) == 0.0
  {
    Element("", symbol, 0, 0.0)
  }

  /** A known symbol maps to its record, any other to the unknown record. */
  function Resolve(table: Table, symbol: string): (e: Element)
    requires table.Valid()
    ensures e.symbol == symbol
    ensures Listed(table.dataset, symbol) ==> e == table.dataset[LastIndex(table.dataset, symbol)]
    ensures !Listed(table.dataset, symbol) ==> e.name == "" && e.atomicNumber == 0 && e.mass == 0.0
  {
    match table.Get(symbol)
    case Some(e) => e
    case None => Unknown(symbol)
  }

  function ResolveAll(table: Table, b: Bag): (es: seq<Entry>)
    requires table.Valid()
    ensures |es| == |b|
    ensures forall i | 0 <= i < |b| :: es[i] == Entry(Resolve(table, b[i].symbol), b[i].quantity)
    decreases |b|
  {
    if b == [] then []
    else [Entry(Resolve(table, b[0].symbol), b[0].quantity)] + ResolveAll(table, b[1..])
  }

  // ---------------------------------------------------------------------
  // Ordering
  // ---------------------------------------------------------------------

  /** Entries in ascending atomic number; unknown symbols (number 0) first. */
  predicate Ascending(es: seq<Entry>)
  {
    forall i, j | 0 <= i < j < |es| :: es[i].element.atomicNumber <= es[j].element.atomicNumber
  }

  lemma AscendingCons(x: Entry, t: seq<Entry>)
    requires Ascending(t)
    requires t != [] ==> x.element.atomicNumber <= t[0].element.atomicNumber
    ensures Ascending([x] + t)
  {
    var r := [x] + t;
    forall i, j | 0 <= i < j < |r|
      ensures r[i].element.atomicNumber <= r[j].element.atomicNumber
    {
      if i == 0 && j > 1 {
        assert r[j] == t[j - 1];
      }
    }
  }

  /** Inserts `e` before the first entry whose atomic number is at least its own. */
  function Insert(e: Entry, s: seq<Entry>): (r: seq<Entry>)
    requires Ascending(s)
    ensures Ascending(r)
    ensures multiset(r) == multiset(s) + multiset{e}
    ensures r[0] == e || r[0] == s[0]
    decreases |s|
  {
    if s == [] || e.element.atomicNumber <= s[0].element.atomicNumber then
      AscendingCons(e, s);
      [e] + s
    else
      assert s == [s[0]] + s[1..];
      var rest := Insert(e, s[1..]);
      assert s[1..] != [] ==> s[0].element.atomicNumber <= s[1].element.atomicNumber;
      AscendingCons(s[0], rest);
      [s[0]] + rest
  }

  /** Insertion sort on the atomic number; entries with equal numbers keep their order. */
  function SortByAtomicNumber(s: seq<Entry>): (r: seq<Entry>)
    ensures Ascending(r)
    ensures multiset(r) == multiset(s)
    decreases |s|
  {
    if s == [] then []
    else
      assert s == [s[0]] + s[1..];
      Insert(s[0], SortByAtomicNumber(s[1..]))
  }

  // ---------------------------------------------------------------------
  // Molar mass
  // ---------------------------------------------------------------------

  /** What one entry contributes: quantity times mass. */
  function EntryMass(e: Entry): real
  {
    e.quantity as real * e.element.mass
  }

  /** Sum of quantity times mass over the entries. */
  function MolarMass(es: seq<Entry>): (m: real)
    ensures (forall i | 0 <= i < |es| :: es[i].element.mass >= 0.0) ==> m >= 0.0
    decreases |es|
  {
    if es == [] then 0.0
    else EntryMass(es[0]) + MolarMass(es[1..])
  }

  /** The compound `new Compound(formula)` builds, or `Err` where it throws. */
  function NewCompound(table: Table, formula: string): (r: Result<Compound>)
    requires table.Valid()
    ensures r.Ok? <==> WellFormed(Normalize(formula))
    ensures r.Ok? ==> Ascending(r.value.elements)
  {
    ParseAcceptsExactly(Normalize(formula));
    match Parse(Normalize(formula))
    case Err => Err
    case Ok(terms) =>
      var es := SortByAtomicNumber(ResolveAll(table, Aggregate(terms)));
      Ok(Compound(es, MolarMass(es)))
  }

  // ---------------------------------------------------------------------
  // What the entries say
  // ---------------------------------------------------------------------

  /** How many entries carry the symbol `x`. */
  function EntryCount(es: seq<Entry>, x: string): nat
    decreases |es|
  {
    if es == [] then 0
    else (if es[0].element.symbol == x then 1 else 0) + EntryCount(es[1..], x)
  }

  lemma {:induction false} EntryCountInsert(e: Entry, s: seq<Entry>, x: string)
    requires Ascending(s)
    ensures EntryCount(Insert(e, s), x) == EntryCount(s, x) + (if e.element.symbol == x then 1 else 0)
    decreases |s|
  {
    if s == [] || e.element.atomicNumber <= s[0].element.atomicNumber {
      assert ([e] + s)[1..] == s;
    } else {
      var r := Insert(e, s);
      assert r[1..] == Insert(e, s[1..]);
      EntryCountInsert(e, s[1..], x);
    }
  }

  /** Sorting neither adds nor drops an entry for any symbol. */
  lemma {:induction false} EntryCountSort(s: seq<Entry>, x: string)
    ensures EntryCount(SortByAtomicNumber(s), x) == EntryCount(s, x)
    decreases |s|
  {
    if s != [] {
      EntryCountSort(s[1..], x);
      EntryCountInsert(s[0], SortByAtomicNumber(s[1..]), x);
    }
  }

  lemma {:induction false} EntryCountResolveAll(table: Table, b: Bag, x: string)
    requires table.Valid() && Distinct(b)
    ensures EntryCount(ResolveAll(table, b), x) == if x in Symbols(b) then 1 else 0
    decreases |b|
  {
    if b == [] {
    } else {
      assert b == [b[0]] + b[1..];
      SymbolsCons(b[0], b[1..]);
      DistinctCons(b[0], b[1..]);
      assert ResolveAll(table, b)[1..] == ResolveAll(table, b[1..]);
      EntryCountResolveAll(table, b[1..], x);
    }
  }

  /**
   * Each symbol written in the formula has exactly one entry, and no other
   * symbol has one.
   */
  lemma CompoundEntryPerSymbol(table: Table, formula: string, x: string)
    requires table.Valid() && NewCompound(table, formula).Ok?
    ensures EntryCount(NewCompound(table, formula).value.elements, x)
      == if x in SymbolsIn(Parse(Normalize(formula)).value) then 1 else 0
  {
    var terms := Parse(Normalize(formula)).value;
    var b := Aggregate(terms);
    EntryCountSort(ResolveAll(table, b), x);
    EntryCountResolveAll(table, b, x);
    AggregateSymbols(terms);
  }

  /**
   * Every entry holds the resolved record of its symbol and the symbol's
   * total count: quantities inside a group multiplied by the group's
   * quantity, repeated symbols added.
   */
  lemma CompoundEntryContents(table: Table, formula: string, i: nat)
    requires table.Valid() && NewCompound(table, formula).Ok?
    requires i < |NewCompound(table, formula).value.elements|
    ensures var e := NewCompound(table, formula).value.elements[i];
      && e.element == Resolve(table, e.element.symbol)
      && e.quantity == CountOf(Parse(Normalize(formula)).value, e.element.symbol)
  {
    var terms := Parse(Normalize(formula)).value;
    var b := Aggregate(terms);
    var unsorted := ResolveAll(table, b);
    var es := SortByAtomicNumber(unsorted);
    assert es == NewCompound(table, formula).value.elements;
    assert es[i] in multiset(unsorted) by {
      assert es[i] in multiset(es);
    }
    var k :| 0 <= k < |unsorted| && unsorted[k] == es[i];
    QuantityOfDistinct(b, k);
    AggregateCounts(terms, b[k].symbol);
  }

  // ---------------------------------------------------------------------
  // The molar mass is the structural sum over the formula
  // ---------------------------------------------------------------------

  /** Mass of one symbol in a symbol map: that of its record, zero when absent. */
  function MassOf(entries: map<string, Element>, x: string): real
  {
    if x in entries then entries[x].mass else 0.0
  }

  /**
   * `n` times `x`, written as an `n`-fold sum so that the proofs below stay
   * within linear arithmetic; `TimesIsProduct` shows it is `n as real * x`.
   */
  function Times(n: nat, x: real): real
    decreases n
  {
    if n == 0 then 0.0 else Times(n - 1, x) + x
  }

  lemma {:induction false} TimesIsProduct(n: nat, x: real)
    ensures Times(n, x) == n as real * x
    decreases n
  {
    if n > 0 {
      TimesIsProduct(n - 1, x);
      assert (n - 1) as real * x + x == n as real * x;
    }
  }

  lemma {:induction false} TimesAddCount(a: nat, b: nat, x: real)
    ensures Times(a + b, x) == Times(a, x) + Times(b, x)
    decreases b
  {
    if b > 0 {
      TimesAddCount(a, b - 1, x);
    }
  }

  lemma {:induction false} TimesZero(n: nat)
    ensures Times(n, 0.0) == 0.0
    decreases n
  {
    if n > 0 {
      TimesZero(n - 1);
    }
  }

  lemma {:induction false} TimesDistributes(n: nat, x: real, y: real)
    ensures Times(n, x + y) == Times(n, x) + Times(n, y)
    decreases n
  {
    if n > 0 {
      TimesDistributes(n - 1, x, y);
    }
  }

  lemma {:induction false} TimesNested(a: nat, q: nat, x: real)
    ensures Times(a * q, x) == Times(q, Times(a, x))
    decreases q
  {
    if q > 0 {
      TimesNested(a, q - 1, x);
      assert a * q == a * (q - 1) + a;
      TimesAddCount(a * (q - 1), a, x);
    }
  }

  /** What one part contributes: quantity times the mass of its symbol. */
  function PartMass(entries: map<string, Element>, p: Part): real
  {
    Times(p.quantity, MassOf(entries, p.symbol))
  }

  function BagMass(entries: map<string, Element>, b: Bag): real
    decreases |b|
  {
    if b == [] then 0.0
    else PartMass(entries, b[0]) + BagMass(entries, b[1..])
  }

  /**
   * Reference mass of a term list: a symbol weighs its quantity times its
   * mass, a group its quantity times the mass of its body.
   */
  function TermsMass(entries: map<string, Element>, ts: seq<Term>): real
    decreases ts
  {
    if ts == [] then 0.0
    else
      var own := match ts[0]
        case Atom(y, q) => Times(q, MassOf(entries, y))
        case Group(body, q) => Times(q, TermsMass(entries, body));
      own + TermsMass(entries, ts[1..])
  }

  lemma {:induction false} TermsMassAppend(entries: map<string, Element>, a: seq<Term>, b: seq<Term>)
    ensures TermsMass(entries, a + b) == TermsMass(entries, a) + TermsMass(entries, b)
    decreases |a|
  {
    if a == [] {
      assert a + b == b;
    } else {
      assert (a + b)[0] == a[0] && (a + b)[1..] == a[1..] + b;
      TermsMassAppend(entries, a[1..], b);
    }
  }

  lemma {:induction false} BagMassAdd(entries: map<string, Element>, b: Bag, x: string, q: nat)
    ensures BagMass(entries, Add(b, x, q)) == BagMass(entries, b) + Times(q, MassOf(entries, x))
    decreases |b|
  {
    if b == [] {
    } else if b[0].symbol == x {
      var r := Add(b, x, q);
      assert r[1..] == b[1..];
      assert r[0] == Part(x, b[0].quantity + q);
      TimesAddCount(b[0].quantity, q, MassOf(entries, x));
    } else {
      var r := Add(b, x, q);
      assert r[1..] == Add(b[1..], x, q);
      BagMassAdd(entries, b[1..], x, q);
    }
  }

  lemma {:induction false} BagMassMerge(entries: map<string, Element>, a: Bag, b: Bag)
    ensures BagMass(entries, Merge(a, b)) == BagMass(entries, a) + BagMass(entries, b)
    decreases |b|
  {
    if b != [] {
      BagMassAdd(entries, a, b[0].symbol, b[0].quantity);
      BagMassMerge(entries, Add(a, b[0].symbol, b[0].quantity), b[1..]);
    }
  }

  lemma {:induction false} BagMassScale(entries: map<string, Element>, b: Bag, q: nat)
    ensures BagMass(entries, Scale(b, q)) == Times(q, BagMass(entries, b))
    decreases |b|
  {
    if b == [] {
      TimesZero(q);
    } else {
      var r := Scale(b, q);
      assert r[1..] == Scale(b[1..], q);
      assert r[0] == Part(b[0].symbol, b[0].quantity * q);
      TimesNested(b[0].quantity, q, MassOf(entries, b[0].symbol));
      assert PartMass(entries, r[0]) == Times(q, PartMass(entries, b[0]));
      BagMassScale(entries, b[1..], q);
      TimesDistributes(q, PartMass(entries, b[0]), BagMass(entries, b[1..]));
      assert BagMass(entries, r) == PartMass(entries, r[0]) + BagMass(entries, r[1..]);
    }
  }

  lemma {:induction false} AggregateMass(entries: map<string, Element>, ts: seq<Term>)
    ensures BagMass(entries, Aggregate(ts)) == TermsMass(entries, ts)
    decreases ts
  {
    if ts != [] {
      var init, last := ts[..|ts| - 1], ts[|ts| - 1];
      assert ts == init + [last];
      AggregateMass(entries, init);
      TermsMassAppend(entries, init, [last]);
      match last
      case Atom(y, q) =>
        BagMassAdd(entries, Aggregate(init), y, q);
      case Group(body, q) =>
        AggregateMass(entries, body);
        BagMassScale(entries, Aggregate(body), q);
        BagMassMerge(entries, Aggregate(init), Scale(Aggregate(body), q));
    }
  }

  lemma {:induction false} MolarMassResolveAll(table: Table, b: Bag)
    requires table.Valid()
    ensures MolarMass(ResolveAll(table, b)) == BagMass(table.entries, b)
    decreases |b|
  {
    if b != [] {
      var es := ResolveAll(table, b);
      assert es[1..] == ResolveAll(table, b[1..]);
      MolarMassResolveAll(table, b[1..]);
      var m := MassOf(table.entries, b[0].symbol);
      assert Resolve(table, b[0].symbol).mass == m;
      ResolvedPartMass(es[0], table.entries, b[0]);
    }
  }

  /** An entry weighs what its part weighs, once the masses agree. */
  lemma ResolvedPartMass(e: Entry, entries: map<string, Element>, p: Part)
    requires e.quantity == p.quantity && e.element.mass == MassOf(entries, p.symbol)
    ensures EntryMass(e) == PartMass(entries, p)
  {
    TimesIsProduct(p.quantity, MassOf(entries, p.symbol));
  }

  lemma {:induction false} MolarMassInsert(e: Entry, s: seq<Entry>)
    requires Ascending(s)
    ensures MolarMass(Insert(e, s)) == EntryMass(e) + MolarMass(s)
    decreases |s|
  {
    if s == [] || e.element.atomicNumber <= s[0].element.atomicNumber {
      assert ([e] + s)[1..] == s;
    } else {
      var r := Insert(e, s);
      assert r[1..] == Insert(e, s[1..]);
      MolarMassInsert(e, s[1..]);
    }
  }

  /** The order of the entries does not change the mass. */
  lemma {:induction false} MolarMassSort(s: seq<Entry>)
    ensures MolarMass(SortByAtomicNumber(s)) == MolarMass(s)
    decreases |s|
  {
    if s != [] {
      MolarMassSort(s[1..]);
      MolarMassInsert(s[0], SortByAtomicNumber(s[1..]));
    }
  }

  /**
   * `molarMass` is the sum of quantity times mass over the entries, and
   * equals the mass of the formula computed directly on its structure.
   */
  lemma CompoundMass(table: Table, formula: string)
    requires table.Valid() && NewCompound(table, formula).Ok?
    ensures var c := NewCompound(table, formula).value;
      && c.molarMass == MolarMass(c.elements)
      && c.molarMass == TermsMass(table.entries, Parse(Normalize(formula)).value)
  {
    var terms := Parse(Normalize(formula)).value;
    var b := Aggregate(terms);
    MolarMassSort(ResolveAll(table, b));
    MolarMassResolveAll(table, b);
    AggregateMass(table.entries, terms);
  }

  /**
   * With non-negative masses in the dataset, every compound has a
   * non-negative molar mass; unknown symbols weigh nothing.
   */
  lemma CompoundMassNonNegative(table: Table, formula: string)
    requires table.Valid()
    requires forall i | 0 <= i < |table.dataset| :: table.dataset[i].mass >= 0.0
    ensures NewCompound(table, formula).Ok? ==> NewCompound(table, formula).value.molarMass >= 0.0
  {
    if NewCompound(table, formula).Ok? {
      var es := NewCompound(table, formula).value.elements;
      forall i | 0 <= i < |es| ensures es[i].element.mass >= 0.0 {
        CompoundEntryContents(table, formula, i);
        var x := es[i].element.symbol;
        if Listed(table.dataset, x) {
          assert es[i].element == table.dataset[LastIndex(table.dataset, x)];
        }
      }
    }
  }

  /** Ignored characters anywhere in the formula do not change the compound. */
  lemma IgnoredCharacterIrrelevant(table: Table, a: string, c: char, b: string)
    requires table.Valid() && IsIgnored(c)
    ensures NewCompound(table, a + [c] + b) == NewCompound(table, a + b)
  {
    NormalizeDropsIgnored(a, c, b);
  }

  /**
   * Exchanging the kind of every bracket at once, `(` with `[` and `)` with
   * `]`, gives the same compound, or the same refusal.
   */
  lemma BracketKindIrrelevant(table: Table, formula: string)
    requires table.Valid()
    ensures NewCompound(table, SwapBrackets(formula)) == NewCompound(table, formula)
  {
    NormalizeSwap(formula);
    ParseSwap(Normalize(formula));
  }

  /**
   * Two valid formulas written with the same brackets, each pair round or
   * square as it pleases, build the same compound.
   */
  lemma MixedBracketsIrrelevant(table: Table, f: string, g: string)
    requires table.Valid()
    requires WellFormed(Normalize(f)) && WellFormed(Normalize(g))
    requires RoundBrackets(Normalize(f)) == RoundBrackets(Normalize(g))
    ensures NewCompound(table, g) == NewCompound(table, f)
  {
    ParseAlike(Normalize(f), Normalize(g));
  }

  /** A valid formula builds the same compound with all its brackets round. */
  lemma RoundBracketsIrrelevant(table: Table, formula: string)
    requires table.Valid() && WellFormed(Normalize(formula))
    ensures NewCompound(table, RoundBrackets(formula)) == NewCompound(table, formula)
  {
    NormalizeRound(formula);
    ParseRound(Normalize(formula));
  }
}
