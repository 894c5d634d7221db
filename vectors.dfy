/**
 * The formula-level vectors of the compound tests: the strings the tests
 * expect to be rejected and accepted, and the trees some of them parse to.
 */
module Vectors {
  import opened Wrappers
  import opened Formula
  import opened Spelling

  /** No ignored character in `s`, so normalising leaves it as it is. */
  predicate Clean(s: string)
  {
    forall c | c in s :: !IsIgnored(c)
  }

  lemma CleanNormal(s: string)
    requires Clean(s)
    ensures Normalize(s) == s
  {
    forall i | 0 <= i < |s| ensures !IsIgnored(s[i]) {
      assert s[i] in s;
    }
    NormalizeKeepsClean(s);
  }

  /** A formula without ignored characters that breaks a rule is rejected. */
  lemma Rejected(s: string)
    requires Clean(s) && !WellFormed(s)
    ensures !WellFormed(Normalize(s))
  {
    CleanNormal(s);
  }

  /** A formula that is the canonical spelling of a tree parses to that tree. */
  lemma Parsed(f: string, ts: seq<Term>)
    requires Writable(ts) && ts != [] && Spell(ts) == f && Clean(f)
    ensures Parse(Normalize(f)) == Ok(ts)
  {
    ParseSpell(ts);
    CleanNormal(f);
  }

  lemma StackOpens(t: string, k: nat, st: seq<char>)
    requires k < |t| && IsOpen(t[k]) && StackAt(t, k) == Some(st)
    ensures StackAt(t, k + 1) == Some(st + [t[k]])
  {
  }

  // ---------------------------------------------------------------------
  // Rejected formulas
  // ---------------------------------------------------------------------

  lemma UnclosedRejected()
    ensures !WellFormed(Normalize("((A"))
  {
    var t := "((A";
    assert Clean(t);
    assert !Balanced(t) by {
      StackOpens(t, 0, []);
      assert [] + [t[0]] == ['('];
      StackOpens(t, 1, ['(']);
      assert StackAt(t, 3) == StackAt(t, 2);
    }
    Rejected(t);
  }

  lemma UnopenedRejected()
    ensures !WellFormed(Normalize("A))"))
  {
    var t := "A))";
    assert Clean(t);
    assert !Balanced(t) by {
      assert StackAt(t, 2) == None;
      StackNoneStays(t, 2, 3);
    }
    Rejected(t);
  }

  lemma ExtraCloseRejected()
    ensures !WellFormed(Normalize("((A)B)C)"))
  {
    var t := "((A)B)C)";
    assert Clean(t);
    assert !Balanced(t) by {
      StackOpens(t, 0, []);
      assert [] + [t[0]] == ['('];
      StackOpens(t, 1, ['(']);
      assert ['('] + [t[1]] == ['(', '('];
      assert StackAt(t, 3) == Some(['(', '(']);
      assert ['(', '('][..1] == ['('];
      assert StackAt(t, 4) == Some(['(']);
      assert StackAt(t, 6) == Some([]);
      assert StackAt(t, 8) == None;
    }
    Rejected(t);
  }

  lemma CloseAfterGroupRejected()
    ensures !WellFormed(Normalize("(A)B)"))
  {
    var t := "(A)B)";
    assert Clean(t);
    assert !Balanced(t) by {
      StackOpens(t, 0, []);
      assert [] + [t[0]] == ['('];
      assert StackAt(t, 3) == Some([]);
      assert StackAt(t, 5) == None;
    }
    Rejected(t);
  }

  lemma SecondGroupUnclosedRejected()
    ensures !WellFormed(Normalize("(A)(B"))
  {
    var t := "(A)(B";
    assert Clean(t);
    assert !Balanced(t) by {
      StackOpens(t, 0, []);
      assert [] + [t[0]] == ['('];
      assert StackAt(t, 3) == Some([]);
      StackOpens(t, 3, []);
      assert StackAt(t, 5) == StackAt(t, 4);
    }
    Rejected(t);
  }

  lemma BalancedAccepted()
    ensures WellFormed(Normalize("(A)"))
  {
    var t := "(A)";
    assert Clean(t);
    assert WellFormed(t) by {
      assert Balanced(t) by {
        StackOpens(t, 0, []);
        assert [] + [t[0]] == ['('];
        assert StackAt(t, 3) == Some([]);
      }
      BalancedRules(t);
    }
    CleanNormal(t);
  }

  lemma BalancedRules(t: string)
    requires t == "(A)"
    ensures OnlyFormulaChars(t) && LowercaseContinuesSymbol(t)
    ensures DigitsFollowUnit(t) && NoEmptyGroup(t)
  {
    assert t[0] == '(' && t[1] == 'A' && t[2] == ')';
  }

  lemma LowercaseStartRejected()
    ensures !WellFormed(Normalize("pCH4"))
  {
    assert !LowercaseContinuesSymbol("pCH4") by { assert "pCH4"[0] == 'p'; }
    Rejected("pCH4");
  }

  lemma NumberStartRejected()
    ensures !WellFormed(Normalize("4(Zn)"))
  {
    assert !DigitsFollowUnit("4(Zn)") by { assert "4(Zn)"[0] == '4'; }
    Rejected("4(Zn)");
  }

  lemma CloseStartRejected()
    ensures !WellFormed(Normalize(")He"))
  {
    var t := ")He";
    assert Clean(t);
    assert !Balanced(t) by {
      assert StackAt(t, 1) == None;
      StackNoneStays(t, 1, 3);
    }
    Rejected(t);
  }

  lemma LowercaseAfterNumberRejected()
    ensures !WellFormed(Normalize("C2h4o2"))
  {
    var t := "C2h4o2";
    assert Clean(t);
    assert !LowercaseContinuesSymbol(t) by { assert t[2] == 'h' && t[1] == '2'; }
    Rejected(t);
  }

  lemma LowercaseAfterOpenRejected()
    ensures !WellFormed(Normalize("(k)"))
  {
    var t := "(k)";
    assert Clean(t);
    assert !LowercaseContinuesSymbol(t) by { assert t[1] == 'k' && t[0] == '('; }
    Rejected(t);
  }

  lemma NumberAfterOpenRejected()
    ensures !WellFormed(Normalize("H2O(2)"))
  {
    var t := "H2O(2)";
    assert Clean(t);
    assert !DigitsFollowUnit(t) by { assert t[4] == '2' && t[3] == '('; }
    Rejected(t);
  }

  lemma EmptyGroupRejected()
    ensures !WellFormed(Normalize("Tc()"))
  {
    var t := "Tc()";
    assert Clean(t);
    assert !NoEmptyGroup(t) by { assert t[3] == ')' && t[2] == '('; }
    Rejected(t);
  }

  lemma OpenAtEndRejected()
    ensures !WellFormed(Normalize("K2SO4("))
  {
    var t := "K2SO4(";
    assert Clean(t);
    assert !Balanced(t) by {
      assert t[0] == 'K' && t[1] == '2' && t[2] == 'S' && t[3] == 'O' && t[4] == '4';
      StackSkips(t, 0, 5);
      StackOpens(t, 5, []);
    }
    Rejected(t);
  }

  lemma LowercaseAfterCloseRejected()
    ensures !WellFormed(Normalize("(CH3)cH3"))
  {
    var t := "(CH3)cH3";
    assert Clean(t);
    assert !LowercaseContinuesSymbol(t) by { assert t[5] == 'c' && t[4] == ')'; }
    Rejected(t);
  }

  lemma InvalidCharacterRejected()
    ensures !WellFormed(Normalize("Cl^2"))
  {
    var t := "Cl^2";
    assert Clean(t);
    assert !OnlyFormulaChars(t) by { assert t[2] == '^'; }
    Rejected(t);
  }

  // ---------------------------------------------------------------------
  // Parse trees
  // ---------------------------------------------------------------------

  lemma HydrogenParses()
    ensures Parse(Normalize("H")) == Ok([Atom("H", 1)])
  {
    var ts := [Atom("H", 1)];
    assert Spell(ts) == "H";
    Parsed("H", ts);
  }

  lemma HydroxideParses()
    ensures Parse(Normalize("OH")) == Ok([Atom("O", 1), Atom("H", 1)])
  {
    var ts := [Atom("O", 1), Atom("H", 1)];
    assert Spell(ts) == "OH";
    Parsed("OH", ts);
  }

  lemma WaterParses()
    ensures Parse(Normalize("H2O")) == Ok([Atom("H", 2), Atom("O", 1)])
  {
    var ts := [Atom("H", 2), Atom("O", 1)];
    assert Spell(ts) == "H2O";
    Parsed("H2O", ts);
  }

  lemma ZeroAtomParses()
    ensures Parse(Normalize("H0")) == Ok([Atom("H", 0)])
  {
    var ts := [Atom("H", 0)];
    assert Spell(ts) == "H0";
    Parsed("H0", ts);
  }

  lemma ZeroGroupParses()
    ensures Parse(Normalize("(OH)0")) == Ok([Group([Atom("O", 1), Atom("H", 1)], 0)])
  {
    var ts := [Group([Atom("O", 1), Atom("H", 1)], 0)];
    assert Spell(ts) == "(OH)0";
    Parsed("(OH)0", ts);
  }

  lemma NestedParses()
    ensures Parse(Normalize("((((Pt)7)5))"))
      == Ok([Group([Group([Group([Group([Atom("Pt", 1)], 7)], 5)], 1)], 1)])
  {
    var ts := [Group([Group([Group([Group([Atom("Pt", 1)], 7)], 5)], 1)], 1)];
    assert Clean("((((Pt)7)5))");
    NestedSpelled();
    Parsed("((((Pt)7)5))", ts);
  }

  lemma NestedSpelled()
    ensures var ts := [Group([Group([Group([Group([Atom("Pt", 1)], 7)], 5)], 1)], 1)];
      Spell(ts) == "((((Pt)7)5))" && Writable(ts)
  {
    var g2 := [Group([Group([Atom("Pt", 1)], 7)], 5)];
    var g3 := [Group(g2, 1)];
    InnerSpelled();
    assert Spell(g3) == "(((Pt)7)5)" && Writable(g3) by { SpellGroup(g2, 1); }
    SpellGroup(g3, 1);
  }

  lemma InnerSpelled()
    ensures var ts := [Group([Group([Atom("Pt", 1)], 7)], 5)];
      Spell(ts) == "((Pt)7)5" && Writable(ts)
  {
    var g0 := [Atom("Pt", 1)];
    var g1 := [Group(g0, 7)];
    assert Spell(g0) == "Pt" && Writable(g0);
    assert Spell(g1) == "(Pt)7" && Writable(g1) by { SpellGroup(g0, 7); }
    SpellGroup(g1, 5);
  }

  /** A single group is written as its body in brackets with its quantity. */
  lemma SpellGroup(body: seq<Term>, q: nat)
    requires Writable(body) && body != []
    ensures Spell([Group(body, q)]) == "(" + Spell(body) + ")" + SpellQuantity(q)
    ensures Writable([Group(body, q)])
  {
    assert [Group(body, q)][1..] == [];
  }

  lemma UnknownParses()
    ensures Parse(Normalize("HX2")) == Ok([Atom("H", 1), Atom("X", 2)])
  {
    var ts := [Atom("H", 1), Atom("X", 2)];
    assert Spell(ts) == "HX2";
    Parsed("HX2", ts);
  }

  /** A capital followed by a small letter is one symbol. */
  lemma SodiumParses()
    ensures Parse(Normalize("Na")) == Ok([Atom("Na", 1)])
  {
    var ts := [Atom("Na", 1)];
    assert Spell(ts) == "Na";
    Parsed("Na", ts);
  }

  /** An atom followed by a group with its multiplier. */
  lemma CalciumHydroxideParses()
    ensures Parse(Normalize("Ca(OH)2"))
      == Ok([Atom("Ca", 1), Group([Atom("O", 1), Atom("H", 1)], 2)])
  {
    var ts := [Atom("Ca", 1), Group([Atom("O", 1), Atom("H", 1)], 2)];
    assert Clean("Ca(OH)2");
    CalciumHydroxideSpelled();
    Parsed("Ca(OH)2", ts);
  }

  lemma CalciumHydroxideSpelled()
    ensures var ts := [Atom("Ca", 1), Group([Atom("O", 1), Atom("H", 1)], 2)];
      Spell(ts) == "Ca(OH)2" && Writable(ts)
  {
    var body := [Atom("O", 1), Atom("H", 1)];
    var g := [Group(body, 2)];
    assert Spell(body) == "OH" && Writable(body);
    assert Spell(g) == "(OH)2" && Writable(g) by { SpellGroup(body, 2); }
    SpellAtom("Ca", 1, g);
    assert [Atom("Ca", 1)] + g == [Atom("Ca", 1), Group(body, 2)];
  }

  /** An atom in front is written as its symbol and quantity. */
  lemma SpellAtom(x: string, q: nat, rest: seq<Term>)
    requires IsSymbol(x) && Writable(rest)
    ensures Spell([Atom(x, q)] + rest) == x + SpellQuantity(q) + Spell(rest)
    ensures Writable([Atom(x, q)] + rest)
  {
    assert ([Atom(x, q)] + rest)[1..] == rest;
  }

  /** A digit run is read as one decimal number. */
  lemma RunParses()
    ensures Parse(Normalize("H22")) == Ok([Atom("H", 22)])
  {
    var ts := [Atom("H", 22)];
    TwentyTwo();
    assert Spell(ts) == "H" + "22";
    Parsed("H22", ts);
  }

  lemma TwentyTwo()
    ensures DecimalString(22) == "22"
  {
    assert DecimalString(2) == "2";
  }
}
