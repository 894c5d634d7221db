/**
 * The parser's running aggregate: symbols with quantities, in order of first
 * occurrence. Adding a symbol that is already present adds to its quantity.
 */
module Tally {

  datatype Part = Part(symbol: string, quantity: nat)

  type Bag = seq<Part>

  ghost function Symbols(b: Bag): set<string>
  {
    set i | 0 <= i < |b| :: b[i].symbol
  }

  /** The total quantity recorded for `x`, over all parts. */
  function QuantityOf(b: Bag, x: string): nat
    decreases |b|
  {
    if b == [] then 0
    else (if b[0].symbol == x then b[0].quantity else 0) + QuantityOf(b[1..], x)
  }

  /** No symbol has two parts. */
  ghost predicate Distinct(b: Bag)
  {
    forall i, j | 0 <= i < j < |b| :: b[i].symbol != b[j].symbol
  }

  lemma SymbolsCons(p: Part, b: Bag)
    ensures Symbols([p] + b) == {p.symbol} + Symbols(b)
  {
    var c := [p] + b;
    assert c[0].symbol in Symbols(c);
    forall x | x in Symbols(c) ensures x in {p.symbol} + Symbols(b) {
      var i :| 0 <= i < |c| && c[i].symbol == x;
      if i > 0 { assert c[i] == b[i - 1]; }
    }
    forall x | x in Symbols(b) ensures x in Symbols(c) {
      var i :| 0 <= i < |b| && b[i].symbol == x;
      assert c[i + 1] == b[i];
    }
  }

  lemma DistinctCons(p: Part, b: Bag)
    ensures Distinct([p] + b) <==> p.symbol !in Symbols(b) && Distinct(b)
  {
    var c := [p] + b;
    if Distinct(c) {
      forall i, j | 0 <= i < j < |b| ensures b[i].symbol != b[j].symbol {
        assert c[i + 1] == b[i] && c[j + 1] == b[j];
      }
      forall i | 0 <= i < |b| ensures b[i].symbol != p.symbol {
        assert c[0] == p && c[i + 1] == b[i];
      }
    }
    if p.symbol !in Symbols(b) && Distinct(b) {
      forall i, j | 0 <= i < j < |c| ensures c[i].symbol != c[j].symbol {
        assert c[j] == b[j - 1] && b[j - 1].symbol in Symbols(b);
        if i == 0 {
          assert c[i] == p;
        } else {
          assert c[i] == b[i - 1];
          assert b[i - 1].symbol != b[j - 1].symbol;
        }
      }
    }
  }

  lemma QuantityOfCons(p: Part, b: Bag)
    ensures forall y :: QuantityOf([p] + b, y) == (if p.symbol == y then p.quantity else 0) + QuantityOf(b, y)
  {
    assert ([p] + b)[1..] == b;
  }

  /** A symbol absent from the bag has quantity zero. */
  lemma {:induction false} QuantityOfAbsent(b: Bag, x: string)
    requires x !in Symbols(b)
    ensures QuantityOf(b, x) == 0
    decreases |b|
  {
    if b != [] {
      assert b == [b[0]] + b[1..];
      SymbolsCons(b[0], b[1..]);
      QuantityOfAbsent(b[1..], x);
    }
  }

  /** In a bag without duplicates, a part holds the whole quantity of its symbol. */
  lemma {:induction false} QuantityOfDistinct(b: Bag, i: nat)
    requires Distinct(b) && i < |b|
    ensures QuantityOf(b, b[i].symbol) == b[i].quantity
    decreases |b|
  {
    assert b == [b[0]] + b[1..];
    DistinctCons(b[0], b[1..]);
    if i == 0 {
      QuantityOfAbsent(b[1..], b[0].symbol);
    } else {
      assert b[1..][i - 1] == b[i];
      QuantityOfDistinct(b[1..], i - 1);
    }
  }

  /** `r` is `b` with `q` more of `x`, the contract of `Add`. */
  ghost predicate Added(b: Bag, x: string, q: nat, r: Bag)
  {
    && (forall y :: QuantityOf(r, y) == QuantityOf(b, y) + (if y == x then q else 0))
    && Symbols(r) == Symbols(b) + {x}
    && (Distinct(b) ==> Distinct(r))
  }

  /**
   * Records `q` more of `x`: an existing part grows in place, otherwise a new
   * part goes at the end.
   */
  function Add(b: Bag, x: string, q: nat): (r: Bag)
    ensures forall y :: QuantityOf(r, y) == QuantityOf(b, y) + (if y == x then q else 0)
    ensures Symbols(r) == Symbols(b) + {x}
    ensures Distinct(b) ==> Distinct(r)
    decreases |b|
  {
    if b == [] then
      assert Added(b, x, q, [Part(x, q)]) by { AddNew(x, q); }
      [Part(x, q)]
    else if b[0].symbol == x then
      var r := [Part(x, b[0].quantity + q)] + b[1..];
      assert Added(b, x, q, r) by { AddFound(b, x, q, r); }
      r
    else
      var rest := Add(b[1..], x, q);
      assert Added(b, x, q, [b[0]] + rest) by { AddLater(b, x, q, rest); }
      [b[0]] + rest
  }

  lemma AddNew(x: string, q: nat)
    ensures Added([], x, q, [Part(x, q)])
  {
    SymbolsCons(Part(x, q), []);
    QuantityOfCons(Part(x, q), []);
    assert [Part(x, q)] + [] == [Part(x, q)];
  }

  lemma AddFound(b: Bag, x: string, q: nat, r: Bag)
    requires b != [] && b[0].symbol == x
    requires r == [Part(x, b[0].quantity + q)] + b[1..]
    ensures Added(b, x, q, r)
  {
    assert b == [b[0]] + b[1..];
    SymbolsCons(b[0], b[1..]);
    DistinctCons(b[0], b[1..]);
    QuantityOfCons(b[0], b[1..]);
    QuantityOfCons(r[0], b[1..]);
    SymbolsCons(r[0], b[1..]);
    DistinctCons(r[0], b[1..]);
  }

  lemma AddLater(b: Bag, x: string, q: nat, rest: Bag)
    requires b != [] && b[0].symbol != x
    requires Added(b[1..], x, q, rest)
    ensures Added(b, x, q, [b[0]] + rest)
  {
    assert b == [b[0]] + b[1..];
    SymbolsCons(b[0], b[1..]);
    DistinctCons(b[0], b[1..]);
    QuantityOfCons(b[0], b[1..]);
    QuantityOfCons(b[0], rest);
    SymbolsCons(b[0], rest);
    DistinctCons(b[0], rest);
  }

  /** A symbol not yet present gets a new part at the end. */
  lemma {:induction false} AddAbsent(b: Bag, x: string, q: nat)
    requires x !in Symbols(b)
    ensures Add(b, x, q) == b + [Part(x, q)]
    decreases |b|
  {
    if b != [] {
      assert b == [b[0]] + b[1..];
      SymbolsCons(b[0], b[1..]);
      AddAbsent(b[1..], x, q);
      assert [b[0]] + (b[1..] + [Part(x, q)]) == b + [Part(x, q)];
    }
  }

  /** A symbol already present grows in place; no part moves. */
  lemma {:induction false} AddPresent(b: Bag, x: string, q: nat, i: nat)
    requires Distinct(b) && i < |b| && b[i].symbol == x
    ensures Add(b, x, q) == b[i := Part(x, b[i].quantity + q)]
    decreases |b|
  {
    assert b == [b[0]] + b[1..];
    if i > 0 {
      DistinctCons(b[0], b[1..]);
      assert b[1..][i - 1] == b[i];
      assert b[0].symbol != x;
      AddPresent(b[1..], x, q, i - 1);
      assert [b[0]] + b[1..][i - 1 := Part(x, b[i].quantity + q)] == b[i := Part(x, b[i].quantity + q)];
    }
  }

  /** Merging parts whose symbols are all new appends them in order. */
  lemma {:induction false} MergeDisjoint(a: Bag, b: Bag)
    requires Distinct(a + b)
    ensures Merge(a, b) == a + b
    decreases |b|
  {
    if b != [] {
      var c := a + b;
      var p := b[0];
      assert p.symbol !in Symbols(a) by {
        forall i | 0 <= i < |a| ensures a[i].symbol != p.symbol {
          assert c[i] == a[i] && c[|a|] == p;
        }
      }
      AddAbsent(a, p.symbol, p.quantity);
      assert (a + [p]) + b[1..] == c;
      MergeDisjoint(a + [p], b[1..]);
    }
  }

  /** Adds every part of `b` into `a`, in `b`'s order. */
  function Merge(a: Bag, b: Bag): (r: Bag)
    ensures forall y :: QuantityOf(r, y) == QuantityOf(a, y) + QuantityOf(b, y)
    ensures Symbols(r) == Symbols(a) + Symbols(b)
    ensures Distinct(a) ==> Distinct(r)
    decreases |b|
  {
    if b == [] then
      a
    else
      assert b == [b[0]] + b[1..];
      SymbolsCons(b[0], b[1..]);
      Merge(Add(a, b[0].symbol, b[0].quantity), b[1..])
  }

  /** Multiplies every quantity by `q`; a zero multiplier keeps the parts. */
  function Scale(b: Bag, q: nat): (r: Bag)
    ensures Symbols(r) == Symbols(b)
    ensures Distinct(b) ==> Distinct(r)
    decreases |b|
  {
    if b == [] then
      []
    else
      assert b == [b[0]] + b[1..];
      SymbolsCons(b[0], b[1..]);
      DistinctCons(b[0], b[1..]);
      var rest := Scale(b[1..], q);
      var r := [Part(b[0].symbol, b[0].quantity * q)] + rest;
      SymbolsCons(r[0], rest);
      DistinctCons(r[0], rest);
      r
  }

  /** Scaling multiplies the quantity of every symbol. */
  lemma {:induction false} ScaleQuantity(b: Bag, q: nat, y: string)
    ensures QuantityOf(Scale(b, q), y) == q * QuantityOf(b, y)
    decreases |b|
  {
    if b != [] {
      ScaleQuantity(b[1..], q, y);
      var r := Scale(b, q);
      assert r[0] == Part(b[0].symbol, b[0].quantity * q) && r[1..] == Scale(b[1..], q);
      var own := if b[0].symbol == y then b[0].quantity else 0;
      var rest := QuantityOf(b[1..], y);
      assert QuantityOf(r, y) == own * q + q * rest;
      Distribute(q, own, rest);
    }
  }

  /** Kept as a lemma: proved apart, the product is not expanded inside `ScaleQuantity`. */
  lemma Distribute(q: nat, a: nat, b: nat)
    ensures q * (a + b) == a * q + q * b
  {
  }
}
