/**
 * The compounds of the tests: over a table that holds the usual records,
 * the entries, their order, their quantities and the molar mass that
 * `new Compound(formula)` gives, and the formulas it refuses.
 */
module Examples {
  import opened Wrappers
  import opened Formula
  import opened Tally
  import opened PeriodicTable
  import opened Compounds
  import opened Vectors

  const Hydrogen := Element("Hydrogen", "H", 1, 1.00794)
  const Oxygen := Element("Oxygen", "O", 8, 15.9994)
  const Platinum := Element("Platinum", "Pt", 78, 195.078)
  const Sodium := Element("Sodium", "Na", 11, 22.98977)
  const Calcium := Element("Calcium", "Ca", 20, 40.078)

  // ---------------------------------------------------------------------
  // Steps shared by the vectors
  // ---------------------------------------------------------------------

  /** The compound of a formula whose parse, aggregate and order are known. */
  lemma CompoundOf(table: Table, f: string, ts: seq<Term>, b: Bag, es: seq<Entry>, m: real)
    requires table.Valid()
    requires Parse(Normalize(f)) == Ok(ts) && Aggregate(ts) == b
    requires SortByAtomicNumber(ResolveAll(table, b)) == es && MolarMass(es) == m
    ensures NewCompound(table, f) == Ok(Compound(es, m))
  {
  }

  lemma AggregateAtom(x: string, q: nat)
    ensures Aggregate([Atom(x, q)]) == [Part(x, q)]
  {
    assert [Atom(x, q)][..0] == [];
  }

  /** Two different symbols keep the order they are written in. */
  lemma AggregateAtoms(x: string, p: nat, y: string, q: nat)
    requires x != y
    ensures Aggregate([Atom(x, p), Atom(y, q)]) == [Part(x, p), Part(y, q)]
  {
    var ts := [Atom(x, p), Atom(y, q)];
    assert ts[..1] == [Atom(x, p)];
    assert Aggregate(ts) == Add(Aggregate([Atom(x, p)]), y, q);
    AggregateAtom(x, p);
    AddAbsent([Part(x, p)], y, q) by { SymbolsCons(Part(x, p), []); }
  }

  /** A formula that is one group aggregates to the group's bag, scaled. */
  lemma AggregateGroup(body: seq<Term>, q: nat)
    ensures Aggregate([Group(body, q)]) == Scale(Aggregate(body), q)
  {
    assert [Group(body, q)][..0] == [];
    var s := Scale(Aggregate(body), q);
    assert [] + s == s;
    MergeDisjoint([], s);
  }

  lemma ScaleOne(x: string, p: nat, q: nat)
    ensures Scale([Part(x, p)], q) == [Part(x, p * q)]
  {
    assert [Part(x, p)][1..] == [];
  }

  lemma ScaleTwo(x: string, p: nat, y: string, r: nat, q: nat)
    ensures Scale([Part(x, p), Part(y, r)], q) == [Part(x, p * q), Part(y, r * q)]
  {
    assert [Part(x, p), Part(y, r)][1..] == [Part(y, r)];
    ScaleOne(y, r, q);
  }

  lemma ResolveOne(table: Table, x: string, q: nat)
    requires table.Valid()
    ensures ResolveAll(table, [Part(x, q)]) == [Entry(Resolve(table, x), q)]
  {
  }

  lemma ResolveTwo(table: Table, x: string, p: nat, y: string, q: nat)
    requires table.Valid()
    ensures ResolveAll(table, [Part(x, p), Part(y, q)])
      == [Entry(Resolve(table, x), p), Entry(Resolve(table, y), q)]
  {
  }

  lemma SortOne(a: Entry)
    ensures SortByAtomicNumber([a]) == [a]
  {
    assert [a][1..] == [];
  }

  lemma SortTwo(a: Entry, b: Entry)
    ensures SortByAtomicNumber([a, b])
      == if a.element.atomicNumber <= b.element.atomicNumber then [a, b] else [b, a]
  {
    assert [a, b][1..] == [b];
    SortOne(b);
    assert [b] + [a] == [b, a];
  }

  lemma MolarMassOne(a: Entry)
    ensures MolarMass([a]) == EntryMass(a)
  {
    assert [a][1..] == [];
  }

  lemma MolarMassTwo(a: Entry, b: Entry)
    ensures MolarMass([a, b]) == EntryMass(a) + EntryMass(b)
  {
    assert [a, b][1..] == [b];
    MolarMassOne(b);
  }

  // ---------------------------------------------------------------------
  // Valid compounds
  // ---------------------------------------------------------------------

  lemma HydrogenCompound(table: Table)
    requires table.Valid() && table.Get("H") == Some(Hydrogen)
    ensures NewCompound(table, "H") == Ok(Compound([Entry(Hydrogen, 1)], 1.00794))
  {
    var ts, b, es := [Atom("H", 1)], [Part("H", 1)], [Entry(Hydrogen, 1)];
    assert Parse(Normalize("H")) == Ok(ts) by { HydrogenParses(); }
    assert Aggregate(ts) == b by { AggregateAtom("H", 1); }
    assert SortByAtomicNumber(ResolveAll(table, b)) == es by {
      ResolveOne(table, "H", 1);
      SortOne(es[0]);
    }
    assert MolarMass(es) == 1.00794 by { MolarMassOne(es[0]); }
    CompoundOf(table, "H", ts, b, es, 1.00794);
  }

  /** Hydrogen is listed first although it is written last. */
  lemma HydroxideCompound(table: Table)
    requires table.Valid() && table.Get("H") == Some(Hydrogen) && table.Get("O") == Some(Oxygen)
    ensures NewCompound(table, "OH")
      == Ok(Compound([Entry(Hydrogen, 1), Entry(Oxygen, 1)], 17.00734))
  {
    var ts, b := [Atom("O", 1), Atom("H", 1)], [Part("O", 1), Part("H", 1)];
    var es := [Entry(Hydrogen, 1), Entry(Oxygen, 1)];
    assert Parse(Normalize("OH")) == Ok(ts) by { HydroxideParses(); }
    assert Aggregate(ts) == b by {
      assert "O"[0] != "H"[0];
      AggregateAtoms("O", 1, "H", 1);
    }
    assert SortByAtomicNumber(ResolveAll(table, b)) == es by {
      ResolveTwo(table, "O", 1, "H", 1);
      SortTwo(Entry(Oxygen, 1), Entry(Hydrogen, 1));
    }
    assert MolarMass(es) == 17.00734 by { MolarMassTwo(es[0], es[1]); }
    CompoundOf(table, "OH", ts, b, es, 17.00734);
  }

  lemma WaterCompound(table: Table)
    requires table.Valid() && table.Get("H") == Some(Hydrogen) && table.Get("O") == Some(Oxygen)
    ensures NewCompound(table, "H2O")
      == Ok(Compound([Entry(Hydrogen, 2), Entry(Oxygen, 1)], 18.01528))
  {
    var ts, b := [Atom("H", 2), Atom("O", 1)], [Part("H", 2), Part("O", 1)];
    var es := [Entry(Hydrogen, 2), Entry(Oxygen, 1)];
    assert Parse(Normalize("H2O")) == Ok(ts) by { WaterParses(); }
    assert Aggregate(ts) == b by {
      assert "H"[0] != "O"[0];
      AggregateAtoms("H", 2, "O", 1);
    }
    assert SortByAtomicNumber(ResolveAll(table, b)) == es by {
      ResolveTwo(table, "H", 2, "O", 1);
      SortTwo(es[0], es[1]);
    }
    assert MolarMass(es) == 18.01528 by {
      MolarMassTwo(es[0], es[1]);
      assert EntryMass(es[0]) == 2.01588;
    }
    CompoundOf(table, "H2O", ts, b, es, 18.01528);
  }

  /** Two letters make one symbol. */
  lemma SodiumCompound(table: Table)
    requires table.Valid() && table.Get("Na") == Some(Sodium)
    ensures NewCompound(table, "Na") == Ok(Compound([Entry(Sodium, 1)], 22.98977))
  {
    SodiumParses();
    AggregateAtom("Na", 1);
    SodiumOrder(table);
    MolarMassOne(Entry(Sodium, 1));
    CompoundOf(table, "Na", [Atom("Na", 1)], [Part("Na", 1)], [Entry(Sodium, 1)], 22.98977);
  }

  lemma SodiumOrder(table: Table)
    requires table.Valid() && table.Get("Na") == Some(Sodium)
    ensures SortByAtomicNumber(ResolveAll(table, [Part("Na", 1)])) == [Entry(Sodium, 1)]
  {
    ResolveOne(table, "Na", 1);
    SortOne(Entry(Sodium, 1));
  }

  /** A trailing `+` or `-` leaves the compound of an ion as that of its formula. */
  lemma IonSign(table: Table, f: string, c: char)
    requires table.Valid() && (c == '+' || c == '-')
    ensures NewCompound(table, f + [c]) == NewCompound(table, f)
  {
    IgnoredCharacterIrrelevant(table, f, c, "");
    assert f + [c] + "" == f + [c] && f + "" == f;
  }

  lemma ChargeIgnored(table: Table)
    requires table.Valid()
    ensures NewCompound(table, "Cl-") == NewCompound(table, "Cl")
    ensures NewCompound(table, "Na+") == NewCompound(table, "Na")
  {
    IonSign(table, "Cl", '-');
    assert "Cl" + ['-'] == "Cl-";
    IonSign(table, "Na", '+');
    assert "Na" + ['+'] == "Na+";
  }

  /** A zero quantity keeps the entry, with no mass. */
  lemma ZeroAtomCompound(table: Table)
    requires table.Valid() && table.Get("H") == Some(Hydrogen)
    ensures NewCompound(table, "H0") == Ok(Compound([Entry(Hydrogen, 0)], 0.0))
  {
    var ts, b, es := [Atom("H", 0)], [Part("H", 0)], [Entry(Hydrogen, 0)];
    assert Parse(Normalize("H0")) == Ok(ts) by { ZeroAtomParses(); }
    assert Aggregate(ts) == b by { AggregateAtom("H", 0); }
    assert SortByAtomicNumber(ResolveAll(table, b)) == es by {
      ResolveOne(table, "H", 0);
      SortOne(es[0]);
    }
    assert MolarMass(es) == 0.0 by { MolarMassOne(es[0]); }
    CompoundOf(table, "H0", ts, b, es, 0.0);
  }

  /** A zero multiplier on a group keeps an entry for each of its symbols. */
  lemma ZeroGroupCompound(table: Table)
    requires table.Valid() && table.Get("H") == Some(Hydrogen) && table.Get("O") == Some(Oxygen)
    ensures NewCompound(table, "(OH)0")
      == Ok(Compound([Entry(Hydrogen, 0), Entry(Oxygen, 0)], 0.0))
  {
    ZeroGroupAggregate();
    ZeroGroupOrder(table);
    ZeroGroupMass();
    CompoundOf(table, "(OH)0", [Group([Atom("O", 1), Atom("H", 1)], 0)], [Part("O", 0), Part("H", 0)],
      [Entry(Hydrogen, 0), Entry(Oxygen, 0)], 0.0);
  }

  /** Nested multipliers multiply: seven times five platinum atoms. */
  lemma NestedCompound(table: Table)
    requires table.Valid() && table.Get("Pt") == Some(Platinum)
    ensures NewCompound(table, "((((Pt)7)5))") == Ok(Compound([Entry(Platinum, 35)], 6827.73))
  {
    var g0 := [Atom("Pt", 1)];
    var g1 := [Group(g0, 7)];
    var g2 := [Group(g1, 5)];
    var g3 := [Group(g2, 1)];
    var ts, b, es := [Group(g3, 1)], [Part("Pt", 35)], [Entry(Platinum, 35)];
    assert Parse(Normalize("((((Pt)7)5))")) == Ok(ts) by { NestedParses(); }
    assert Aggregate(ts) == b by {
      AggregateAtom("Pt", 1);
      AggregateGroup(g0, 7);
      ScaleOne("Pt", 1, 7);
      AggregateGroup(g1, 5);
      ScaleOne("Pt", 7, 5);
      AggregateGroup(g2, 1);
      ScaleOne("Pt", 35, 1);
      AggregateGroup(g3, 1);
    }
    assert SortByAtomicNumber(ResolveAll(table, b)) == es by {
      ResolveOne(table, "Pt", 35);
      SortOne(es[0]);
    }
    assert MolarMass(es) == 6827.73 by { MolarMassOne(es[0]); }
    CompoundOf(table, "((((Pt)7)5))", ts, b, es, 6827.73);
  }

  /** A symbol missing from the table gets the empty record and sorts first. */
  lemma UnknownCompound(table: Table)
    requires table.Valid() && table.Get("H") == Some(Hydrogen) && table.Get("X") == None
    ensures NewCompound(table, "HX2")
      == Ok(Compound([Entry(Element("", "X", 0, 0.0), 2), Entry(Hydrogen, 1)], 1.00794))
  {
    UnknownAggregate();
    UnknownOrder(table);
    UnknownMass();
    CompoundOf(table, "HX2", [Atom("H", 1), Atom("X", 2)], [Part("H", 1), Part("X", 2)],
      [Entry(Element("", "X", 0, 0.0), 2), Entry(Hydrogen, 1)], 1.00794);
  }

  lemma UnknownOrder(table: Table)
    requires table.Valid() && table.Get("H") == Some(Hydrogen) && table.Get("X") == None
    ensures SortByAtomicNumber(ResolveAll(table, [Part("H", 1), Part("X", 2)]))
      == [Entry(Element("", "X", 0, 0.0), 2), Entry(Hydrogen, 1)]
  {
    ResolveTwo(table, "H", 1, "X", 2);
    assert Resolve(table, "X") == Element("", "X", 0, 0.0);
    SortTwo(Entry(Hydrogen, 1), Entry(Element("", "X", 0, 0.0), 2));
  }

  lemma ZeroGroupMass()
    ensures MolarMass([Entry(Hydrogen, 0), Entry(Oxygen, 0)]) == 0.0
  {
    MolarMassTwo(Entry(Hydrogen, 0), Entry(Oxygen, 0));
  }

  lemma UnknownMass()
    ensures MolarMass([Entry(Element("", "X", 0, 0.0), 2), Entry(Hydrogen, 1)]) == 1.00794
  {
    MolarMassTwo(Entry(Element("", "X", 0, 0.0), 2), Entry(Hydrogen, 1));
  }

  lemma ZeroGroupOrder(table: Table)
    requires table.Valid() && table.Get("H") == Some(Hydrogen) && table.Get("O") == Some(Oxygen)
    ensures SortByAtomicNumber(ResolveAll(table, [Part("O", 0), Part("H", 0)]))
      == [Entry(Hydrogen, 0), Entry(Oxygen, 0)]
  {
    ResolveTwo(table, "O", 0, "H", 0);
    SortTwo(Entry(Oxygen, 0), Entry(Hydrogen, 0));
  }

  lemma ZeroGroupAggregate()
    ensures var ts := [Group([Atom("O", 1), Atom("H", 1)], 0)];
      Parse(Normalize("(OH)0")) == Ok(ts) && Aggregate(ts) == [Part("O", 0), Part("H", 0)]
  {
    var body := [Atom("O", 1), Atom("H", 1)];
    ZeroGroupParses();
    assert "O"[0] != "H"[0];
    AggregateAtoms("O", 1, "H", 1);
    AggregateGroup(body, 0);
    ScaleTwo("O", 1, "H", 1, 0);
  }

  lemma UnknownAggregate()
    ensures var ts := [Atom("H", 1), Atom("X", 2)];
      Parse(Normalize("HX2")) == Ok(ts) && Aggregate(ts) == [Part("H", 1), Part("X", 2)]
  {
    UnknownParses();
    assert "H"[0] != "X"[0];
    AggregateAtoms("H", 1, "X", 2);
  }

  /**
   * The group's symbols, written after calcium, are listed before it:
   * hydrogen and oxygen have the smaller atomic numbers.
   */
  lemma CalciumHydroxideCompound(table: Table)
    requires table.Valid() && table.Get("H") == Some(Hydrogen) && table.Get("O") == Some(Oxygen)
    requires table.Get("Ca") == Some(Calcium)
    ensures NewCompound(table, "Ca(OH)2")
      == Ok(Compound([Entry(Hydrogen, 2), Entry(Oxygen, 2), Entry(Calcium, 1)], 74.09268))
  {
    CalciumHydroxideParses();
    CalciumHydroxideAggregate();
    CalciumHydroxideResolve(table);
    CalciumHydroxideSort();
    CalciumHydroxideMass();
    CompoundOf(table, "Ca(OH)2", [Atom("Ca", 1), Group([Atom("O", 1), Atom("H", 1)], 2)],
      [Part("Ca", 1), Part("O", 2), Part("H", 2)],
      [Entry(Hydrogen, 2), Entry(Oxygen, 2), Entry(Calcium, 1)], 74.09268);
  }

  lemma CalciumHydroxideAggregate()
    ensures Aggregate([Atom("Ca", 1), Group([Atom("O", 1), Atom("H", 1)], 2)])
      == [Part("Ca", 1), Part("O", 2), Part("H", 2)]
  {
    var body := [Atom("O", 1), Atom("H", 1)];
    assert "O"[0] != "H"[0];
    AggregateAtoms("O", 1, "H", 1);
    ScaleTwo("O", 1, "H", 1, 2);
    AggregateAtomGroup("Ca", 1, body, 2);
    CalciumHydroxideDistinct();
    MergeDisjoint([Part("Ca", 1)], [Part("O", 2), Part("H", 2)]);
  }

  /** An atom followed by a group: the group's scaled bag is merged into the atom's. */
  lemma AggregateAtomGroup(x: string, p: nat, body: seq<Term>, q: nat)
    ensures Aggregate([Atom(x, p), Group(body, q)]) == Merge([Part(x, p)], Scale(Aggregate(body), q))
  {
    assert [Atom(x, p), Group(body, q)][..1] == [Atom(x, p)];
    AggregateAtom(x, p);
  }

  lemma CalciumHydroxideDistinct()
    ensures Distinct([Part("Ca", 1)] + [Part("O", 2), Part("H", 2)])
  {
    var b := [Part("Ca", 1), Part("O", 2), Part("H", 2)];
    assert [Part("Ca", 1)] + [Part("O", 2), Part("H", 2)] == b;
    assert "Ca"[0] != "O"[0] && "Ca"[0] != "H"[0] && "O"[0] != "H"[0];
    assert b[0].symbol == "Ca" && b[1].symbol == "O" && b[2].symbol == "H";
  }

  lemma CalciumHydroxideResolve(table: Table)
    requires table.Valid() && table.Get("H") == Some(Hydrogen) && table.Get("O") == Some(Oxygen)
    requires table.Get("Ca") == Some(Calcium)
    ensures ResolveAll(table, [Part("Ca", 1), Part("O", 2), Part("H", 2)])
      == [Entry(Calcium, 1), Entry(Oxygen, 2), Entry(Hydrogen, 2)]
  {
    var b := [Part("Ca", 1), Part("O", 2), Part("H", 2)];
    assert b[1..] == [Part("O", 2), Part("H", 2)];
    ResolveTwo(table, "O", 2, "H", 2);
  }

  /** Calcium, written first, is listed last. */
  lemma CalciumHydroxideSort()
    ensures SortByAtomicNumber([Entry(Calcium, 1), Entry(Oxygen, 2), Entry(Hydrogen, 2)])
      == [Entry(Hydrogen, 2), Entry(Oxygen, 2), Entry(Calcium, 1)]
  {
    var es := [Entry(Calcium, 1), Entry(Oxygen, 2), Entry(Hydrogen, 2)];
    assert es[1..] == [Entry(Oxygen, 2), Entry(Hydrogen, 2)];
    SortTwo(Entry(Oxygen, 2), Entry(Hydrogen, 2));
    InsertLast(Entry(Calcium, 1), [Entry(Hydrogen, 2), Entry(Oxygen, 2)]);
  }

  /** An entry heavier in atomic number than all the others goes last. */
  lemma {:induction false} InsertLast(e: Entry, s: seq<Entry>)
    requires Ascending(s)
    requires forall k | 0 <= k < |s| :: s[k].element.atomicNumber < e.element.atomicNumber
    ensures Insert(e, s) == s + [e]
    decreases |s|
  {
    if s != [] {
      InsertLast(e, s[1..]);
      assert s == [s[0]] + s[1..];
    }
  }

  lemma CalciumHydroxideMass()
    ensures MolarMass([Entry(Hydrogen, 2), Entry(Oxygen, 2), Entry(Calcium, 1)]) == 74.09268
  {
    var es := [Entry(Hydrogen, 2), Entry(Oxygen, 2), Entry(Calcium, 1)];
    assert es[1..] == [Entry(Oxygen, 2), Entry(Calcium, 1)];
    MolarMassTwo(Entry(Oxygen, 2), Entry(Calcium, 1));
    assert EntryMass(es[0]) == 2.01588 && EntryMass(es[1]) == 31.9988;
  }

  // ---------------------------------------------------------------------
  // Refused formulas
  // ---------------------------------------------------------------------

  lemma ParenthesesValidated(table: Table)
    requires table.Valid()
    ensures NewCompound(table, "((A").Err? && NewCompound(table, "A))").Err?
    ensures NewCompound(table, "((A)B)C)").Err? && NewCompound(table, "(A)B)").Err?
    ensures NewCompound(table, "(A)(B").Err? && NewCompound(table, "(A)").Ok?
  {
    UnclosedRejected();
    UnopenedRejected();
    ExtraCloseRejected();
    CloseAfterGroupRejected();
    SecondGroupUnclosedRejected();
    BalancedAccepted();
  }

  lemma InvalidCompoundsRefused(table: Table)
    requires table.Valid()
    ensures NewCompound(table, "pCH4").Err? && NewCompound(table, "4(Zn)").Err?
    ensures NewCompound(table, ")He").Err? && NewCompound(table, "C2h4o2").Err?
    ensures NewCompound(table, "(k)").Err? && NewCompound(table, "H2O(2)").Err?
    ensures NewCompound(table, "Tc()").Err? && NewCompound(table, "K2SO4(").Err?
    ensures NewCompound(table, "(CH3)cH3").Err? && NewCompound(table, "Cl^2").Err?
  {
    LowercaseStartRejected();
    NumberStartRejected();
    CloseStartRejected();
    LowercaseAfterNumberRejected();
    LowercaseAfterOpenRejected();
    NumberAfterOpenRejected();
    EmptyGroupRejected();
    OpenAtEndRejected();
    LowercaseAfterCloseRejected();
    InvalidCharacterRejected();
  }
}
