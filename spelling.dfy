/**
 * The canonical way of writing a term tree back as a formula: symbols as
 * they are, groups in round brackets, and a quantity only where it is not 1.
 * Parsing what is written gives back the tree, so the parser loses nothing
 * but the spelling of quantities and the kind of brackets.
 */
module Spelling {
  import opened Wrappers
  import opened Formula

  /** One uppercase letter, optionally followed by one lowercase letter. */
  predicate IsSymbol(x: string)
  {
    (|x| == 1 && IsUpper(x[0])) || (|x| == 2 && IsUpper(x[0]) && IsLower(x[1]))
  }

  /** Term lists the grammar can write: proper symbols, and no empty group. */
  predicate Writable(ts: seq<Term>)
    decreases ts
  {
    ts == [] ||
    ((match ts[0]
      case Atom(x, _) => IsSymbol(x)
      case Group(body, _) => body != [] && Writable(body))
     && Writable(ts[1..]))
  }

  /** A quantity of 1 is left unwritten. */
  function SpellQuantity(q: nat): (s: string)
    ensures AllDigits(s)
  {
    if q == 1 then "" else DecimalString(q)
  }

  /** The text of the first term. */
  function Head(ts: seq<Term>): string
    requires ts != []
    decreases ts, 0
  {
    match ts[0]
    case Atom(x, q) => x + SpellQuantity(q)
    case Group(body, q) => "(" + Spell(body) + ")" + SpellQuantity(q)
  }

  function Spell(ts: seq<Term>): string
    decreases ts, 1
  {
    if ts == [] then "" else Head(ts) + Spell(ts[1..])
  }

  // ---------------------------------------------------------------------
  // Shape of the written text
  // ---------------------------------------------------------------------

  /** Where a term may end: the end of the text, or a character no term continues with. */
  predicate Boundary(t: string, k: nat)
    requires k <= |t|
  {
    k == |t| || IsUpper(t[k]) || IsOpen(t[k]) || IsClose(t[k])
  }

  /** Which characters may follow which, as far as the validation rules care. */
  predicate PairOk(c: char, d: char)
  {
    (IsLower(d) ==> IsUpper(c)) && ((IsDigit(d) || IsClose(d)) ==> !IsOpen(c))
  }

  predicate Adjacent(s: string)
  {
    forall k | 0 < k < |s| :: PairOk(s[k - 1], s[k])
  }

  lemma AdjacentAppend(a: string, b: string)
    requires Adjacent(a) && Adjacent(b)
    requires a != [] && b != [] ==> PairOk(a[|a| - 1], b[0])
    ensures Adjacent(a + b)
  {
    var s := a + b;
    forall k | 0 < k < |s| ensures PairOk(s[k - 1], s[k]) {
      if k < |a| {
        assert s[k - 1] == a[k - 1] && s[k] == a[k];
      } else if k == |a| {
        assert s[k - 1] == a[|a| - 1] && s[k] == b[0];
      } else {
        assert s[k - 1] == b[k - 1 - |a|] && s[k] == b[k - |a|];
      }
    }
  }

  lemma FormulaCharsAppend(a: string, b: string)
    requires OnlyFormulaChars(a) && OnlyFormulaChars(b)
    ensures OnlyFormulaChars(a + b)
  {
    var s := a + b;
    forall k | 0 <= k < |s| ensures IsFormulaChar(s[k]) {
      if k >= |a| {
        assert s[k] == b[k - |a|];
      }
    }
  }

  /** What counts for the validator: a first character that starts a term, and every pair in order. */
  predicate Shaped(s: string)
  {
    && Adjacent(s)
    && OnlyFormulaChars(s)
    && (s != [] ==> (IsUpper(s[0]) || s[0] == '(') && !IsOpen(s[|s| - 1]))
  }

  lemma ShapedAppend(a: string, b: string)
    requires Shaped(a) && Shaped(b)
    ensures Shaped(a + b)
  {
    AdjacentAppend(a, b);
    FormulaCharsAppend(a, b);
    if a == [] {
      assert a + b == b;
    } else if b == [] {
      assert a + b == a;
    } else {
      assert (a + b)[0] == a[0] && (a + b)[|a + b| - 1] == b[|b| - 1];
    }
  }

  lemma QuantityShaped(c: char, q: nat)
    requires IsUpper(c) || IsLower(c) || c == ')'
    ensures Adjacent([c] + SpellQuantity(q)) && OnlyFormulaChars([c] + SpellQuantity(q))
    ensures !IsOpen(([c] + SpellQuantity(q))[|[c] + SpellQuantity(q)| - 1])
  {
    var d := SpellQuantity(q);
    var s := [c] + d;
    forall k | 0 < k < |s| ensures PairOk(s[k - 1], s[k]) {
      assert s[k] == d[k - 1];
      if k > 1 {
        assert s[k - 1] == d[k - 2];
      }
    }
    forall k | 0 < k < |s| ensures IsFormulaChar(s[k]) {
      assert s[k] == d[k - 1];
    }
    if d != [] {
      assert s[|s| - 1] == d[|d| - 1];
    }
  }

  lemma AtomShaped(x: string, q: nat)
    requires IsSymbol(x)
    ensures Shaped(x + SpellQuantity(q))
  {
    var d := SpellQuantity(q);
    var c := x[|x| - 1];
    QuantityShaped(c, q);
    assert x == x[..|x| - 1] + [c];
    assert x + d == x[..|x| - 1] + ([c] + d);
    assert Shaped(x[..|x| - 1]);
    assert Shaped([c] + d) || x[..|x| - 1] != [];
    if |x| == 1 {
      assert x + d == [c] + d;
    } else {
      AdjacentAppend(x[..|x| - 1], [c] + d);
      FormulaCharsAppend(x[..|x| - 1], [c] + d);
      var s := x + d;
      assert s[0] == x[0];
      assert s[|s| - 1] == ([c] + d)[|[c] + d| - 1];
    }
  }

  lemma GroupShaped(body: string, q: nat)
    requires Shaped(body) && body != []
    ensures Shaped("(" + body + ")" + SpellQuantity(q))
  {
    var d := SpellQuantity(q);
    QuantityShaped(')', q);
    AdjacentAppend("(", body);
    FormulaCharsAppend("(", body);
    AdjacentAppend("(" + body, [')'] + d);
    FormulaCharsAppend("(" + body, [')'] + d);
    var s := "(" + body + ")" + d;
    assert s == ("(" + body) + ([')'] + d);
    assert s[0] == '(';
    assert s[|s| - 1] == ([')'] + d)[|[')'] + d| - 1];
  }

  lemma {:induction false} SpellShaped(ts: seq<Term>)
    requires Writable(ts)
    ensures Shaped(Spell(ts))
    ensures ts != [] ==> Spell(ts) != []
    decreases ts
  {
    if ts != [] {
      SpellShaped(ts[1..]);
      match ts[0]
      case Atom(x, q) =>
        AtomShaped(x, q);
      case Group(body, q) =>
        SpellShaped(body);
        GroupShaped(Spell(body), q);
      ShapedAppend(Head(ts), Spell(ts[1..]));
    }
  }

  // ---------------------------------------------------------------------
  // The written text keeps the bracket stack
  // ---------------------------------------------------------------------

  /** `t` holds `s` from position `i` on. */
  predicate Holds(t: string, i: nat, s: string)
    decreases |s|
  {
    i + |s| <= |t| && (s == [] || (t[i] == s[0] && Holds(t, i + 1, s[1..])))
  }

  lemma {:induction false} HoldsSplit(t: string, i: nat, a: string, b: string)
    requires Holds(t, i, a + b)
    ensures Holds(t, i, a) && Holds(t, i + |a|, b)
    decreases |a|
  {
    if a == [] {
      assert a + b == b;
    } else {
      assert (a + b)[0] == a[0] && (a + b)[1..] == a[1..] + b;
      HoldsSplit(t, i + 1, a[1..], b);
    }
  }

  lemma {:induction false} HoldsAt(t: string, i: nat, s: string, k: nat)
    requires Holds(t, i, s) && k < |s|
    ensures t[i + k] == s[k]
    decreases k
  {
    if k > 0 {
      HoldsAt(t, i + 1, s[1..], k - 1);
    }
  }

  lemma {:induction false} HoldsRest(t: string, i: nat)
    requires i <= |t|
    ensures Holds(t, i, t[i..])
    decreases |t| - i
  {
    if i < |t| {
      assert t[i..][1..] == t[i + 1..];
      HoldsRest(t, i + 1);
    }
  }

  lemma {:induction false} HoldsSlice(t: string, i: nat, s: string)
    requires Holds(t, i, s)
    ensures t[i..i + |s|] == s
    decreases |s|
  {
    if s != [] {
      HoldsSlice(t, i + 1, s[1..]);
      assert t[i..i + |s|] == [t[i]] + t[i + 1..i + |s|];
    }
  }

  /** The pieces of a written group, position by position. */
  lemma GroupHolds(t: string, i: nat, b: string, d: string)
    requires Holds(t, i, "(" + b + ")" + d)
    ensures t[i] == '(' && Holds(t, i + 1, b)
    ensures i + 1 + |b| < |t| && t[i + 1 + |b|] == ')' && Holds(t, i + 1 + |b| + 1, d)
  {
    assert "(" + b + ")" + d == "(" + (b + (")" + d));
    HoldsSplit(t, i, "(", b + (")" + d));
    HoldsSplit(t, i + 1, b, ")" + d);
    HoldsSplit(t, i + 1 + |b|, ")", d);
    HoldsAt(t, i, "(", 0);
    HoldsAt(t, i + 1 + |b|, ")", 0);
  }

  /** The bracket stack after reading `s` from the stack `o`. */
  function Run(o: Option<seq<char>>, s: string): Option<seq<char>>
    decreases |s|
  {
    if o.None? || s == [] then o else Run(StackStep(o.value, s[0]), s[1..])
  }

  lemma {:induction false} RunAppend(o: Option<seq<char>>, a: string, b: string)
    ensures Run(o, a + b) == Run(Run(o, a), b)
    decreases |a|
  {
    if o.Some? && a != [] {
      assert (a + b)[0] == a[0] && (a + b)[1..] == a[1..] + b;
      RunAppend(StackStep(o.value, a[0]), a[1..], b);
    } else if a == [] {
      assert a + b == b;
    }
  }

  /** Reading `s` inside `t` from position `i` is a run over `s`. */
  lemma {:induction false} StackAtRun(t: string, i: nat, s: string)
    requires Holds(t, i, s)
    ensures StackAt(t, i + |s|) == Run(StackAt(t, i), s)
    decreases |s|
  {
    if s != [] {
      if StackAt(t, i).None? {
        StackNoneStays(t, i, i + |s|);
      } else {
        assert StackAt(t, i + 1) == StackStep(StackAt(t, i).value, s[0]);
        StackAtRun(t, i + 1, s[1..]);
      }
    }
  }

  lemma {:induction false} PlainRun(st: seq<char>, s: string)
    requires forall k | 0 <= k < |s| :: !IsOpen(s[k]) && !IsClose(s[k])
    ensures Run(Some(st), s) == Some(st)
    decreases |s|
  {
    if s != [] {
      PlainRun(st, s[1..]);
    }
  }

  /** Whatever is written closes every bracket it opens. */
  lemma {:induction false} SpellRun(st: seq<char>, ts: seq<Term>)
    requires Writable(ts)
    ensures Run(Some(st), Spell(ts)) == Some(st)
    decreases ts, 1
  {
    if ts != [] {
      assert Spell(ts) == Head(ts) + Spell(ts[1..]);
      RunAppend(Some(st), Head(ts), Spell(ts[1..]));
      HeadRun(st, ts);
      SpellRun(st, ts[1..]);
    }
  }

  lemma {:induction false} HeadRun(st: seq<char>, ts: seq<Term>)
    requires ts != [] && Writable(ts)
    ensures Run(Some(st), Head(ts)) == Some(st)
    decreases ts, 0
  {
    match ts[0]
    case Atom(x, q) =>
      PlainRun(st, Head(ts));
    case Group(body, q) =>
      SpellRun(st + ['('], body);
      GroupRun(st, Spell(body), SpellQuantity(q));
  }

  lemma GroupRun(st: seq<char>, b: string, d: string)
    requires Run(Some(st + ['(']), b) == Some(st + ['('])
    requires forall k | 0 <= k < |d| :: !IsOpen(d[k]) && !IsClose(d[k])
    ensures Run(Some(st), "(" + b + ")" + d) == Some(st)
  {
    var o := Some(st + ['(']);
    RunAppend(Some(st), "(" + b + ")", d);
    RunAppend(Some(st), "(" + b, ")");
    RunAppend(Some(st), "(", b);
    assert Run(Some(st), "(") == o;
    assert (st + ['('])[..|st|] == st;
    assert Run(o, ")") == Some(st);
    PlainRun(st, d);
  }

  // ---------------------------------------------------------------------
  // The written text parses back
  // ---------------------------------------------------------------------

  lemma {:induction false} DigitsEndAt(t: string, a: nat, d: string)
    requires Holds(t, a, d) && AllDigits(d)
    requires a + |d| == |t| || !IsDigit(t[a + |d|])
    ensures DigitsEnd(t, a) == a + |d|
    decreases |d|
  {
    if d != [] {
      HoldsAt(t, a, d, 0);
      HoldsSplit(t, a, [d[0]], d[1..]);
      assert [d[0]] + d[1..] == d;
      DigitsEndAt(t, a + 1, d[1..]);
    }
  }

  lemma QuantitySpelled(t: string, e: nat, q: nat, k: nat)
    requires Holds(t, e, SpellQuantity(q)) && k == e + |SpellQuantity(q)| && Boundary(t, k)
    ensures DigitsEnd(t, e) == k && AllDigits(t[e..k]) && Quantity(t, e, k) == q
  {
    DigitsEndAt(t, e, SpellQuantity(q));
    HoldsSlice(t, e, SpellQuantity(q));
    if q != 1 {
      DecimalRoundTrip(q);
    }
  }

  lemma AtomSpelled(t: string, i: nat, x: string, q: nat)
    requires IsSymbol(x) && Holds(t, i, x + SpellQuantity(q))
    requires Boundary(t, i + |x + SpellQuantity(q)|)
    ensures ParseTerm(t, i) == Ok((Atom(x, q), i + |x + SpellQuantity(q)|))
  {
    var d := SpellQuantity(q);
    HoldsSplit(t, i, x, d);
    HoldsSlice(t, i, x);
    HoldsAt(t, i, x, 0);
    var e := i + |x|;
    if |x| == 2 {
      HoldsAt(t, i, x, 1);
    } else if e < |t| && d != [] {
      HoldsAt(t, e, d, 0);
    }
    assert SymbolEnd(t, i) == e;
    QuantitySpelled(t, e, q, e + |d|);
  }

  lemma GroupSpelled(t: string, i: nat, body: seq<Term>, q: nat, j: nat, k: nat)
    requires body != [] && i < j < |t| && t[i] == '(' && t[j] == ')'
    requires ParseTerms(t, i + 1) == Ok((body, j))
    requires Holds(t, j + 1, SpellQuantity(q)) && k == j + 1 + |SpellQuantity(q)| && Boundary(t, k)
    ensures ParseTerm(t, i) == Ok((Group(body, q), k))
  {
    QuantitySpelled(t, j + 1, q, k);
    GroupQuantified(t, i, body, q, j, k);
  }

  /** The first character of a written term starts a term. */
  lemma HeadStarts(ts: seq<Term>)
    requires Writable(ts) && ts != []
    ensures |Head(ts)| > 0 && (IsUpper(Head(ts)[0]) || Head(ts)[0] == '(')
  {
  }

  lemma {:induction false} HeadParses(t: string, i: nat, ts: seq<Term>, k: nat)
    requires Writable(ts) && ts != [] && Holds(t, i, Head(ts))
    requires k == i + |Head(ts)| && Boundary(t, k)
    ensures ParseTerm(t, i) == Ok((ts[0], k))
    decreases ts, 0
  {
    match ts[0]
    case Atom(x, q) =>
      AtomSpelled(t, i, x, q);
    case Group(body, q) =>
      GroupHeadParses(t, i, body, q, k);
  }

  lemma {:induction false} GroupHeadParses(t: string, i: nat, body: seq<Term>, q: nat, k: nat)
    requires Writable(body) && body != []
    requires Holds(t, i, "(" + Spell(body) + ")" + SpellQuantity(q))
    requires k == i + 2 + |Spell(body)| + |SpellQuantity(q)| && Boundary(t, k)
    ensures ParseTerm(t, i) == Ok((Group(body, q), k))
    decreases body, 3
  {
    var b, d := Spell(body), SpellQuantity(q);
    var j := i + 1 + |b|;
    GroupHolds(t, i, b, d);
    SpellParses(t, i + 1, body, j);
    GroupSpelled(t, i, body, q, j, k);
  }

  /** One more term in front of a parsed term list. */
  lemma TermsCons(t: string, i: nat, ts: seq<Term>, j: nat, k: nat)
    requires i < |t| && !IsClose(t[i]) && ts != []
    requires ParseTerm(t, i) == Ok((ts[0], j)) && ParseTerms(t, j) == Ok((ts[1..], k))
    ensures ParseTerms(t, i) == Ok((ts, k))
  {
    assert [ts[0]] + ts[1..] == ts;
  }

  lemma {:induction false} SpellParses(t: string, i: nat, ts: seq<Term>, k: nat)
    requires Writable(ts) && Holds(t, i, Spell(ts)) && k == i + |Spell(ts)|
    requires k == |t| || (k < |t| && IsClose(t[k]))
    ensures ParseTerms(t, i) == Ok((ts, k))
    decreases ts, 2
  {
    if ts != [] {
      ConsParses(t, i, ts, k);
    }
  }

  lemma {:induction false} ConsParses(t: string, i: nat, ts: seq<Term>, k: nat)
    requires Writable(ts) && ts != [] && Holds(t, i, Spell(ts)) && k == i + |Spell(ts)|
    requires k == |t| || (k < |t| && IsClose(t[k]))
    ensures ParseTerms(t, i) == Ok((ts, k))
    decreases ts, 1
  {
    var j := i + |Head(ts)|;
    ConsSplit(t, i, ts, k);
    HeadParses(t, i, ts, j);
    SpellParses(t, j, ts[1..], k);
    TermsCons(t, i, ts, j, k);
  }

  /** The written first term, followed by the rest, with a boundary between them. */
  lemma HoldsCons(t: string, i: nat, ts: seq<Term>)
    requires ts != [] && Holds(t, i, Spell(ts))
    ensures Holds(t, i, Head(ts)) && Holds(t, i + |Head(ts)|, Spell(ts[1..]))
    ensures |Spell(ts)| == |Head(ts)| + |Spell(ts[1..])|
  {
    assert Spell(ts) == Head(ts) + Spell(ts[1..]);
    HoldsSplit(t, i, Head(ts), Spell(ts[1..]));
  }

  lemma ConsSplit(t: string, i: nat, ts: seq<Term>, k: nat)
    requires Writable(ts) && ts != [] && Holds(t, i, Spell(ts)) && k == i + |Spell(ts)|
    requires k == |t| || (k < |t| && IsClose(t[k]))
    ensures Holds(t, i, Head(ts)) && Holds(t, i + |Head(ts)|, Spell(ts[1..]))
    ensures k == i + |Head(ts)| + |Spell(ts[1..])|
    ensures Boundary(t, i + |Head(ts)|)
    ensures i < |t| && !IsClose(t[i])
  {
    HoldsCons(t, i, ts);
    var j := i + |Head(ts)|;
    assert Boundary(t, j) by {
      if ts[1..] != [] {
        SpellStarts(t, j, ts[1..]);
      }
    }
    SpellStarts(t, i, ts);
  }

  /** A spelled formula starts with a capital letter or an opening bracket. */
  lemma SpellStarts(t: string, i: nat, ts: seq<Term>)
    requires Writable(ts) && ts != [] && Holds(t, i, Spell(ts))
    ensures i < |t| && (IsUpper(t[i]) || t[i] == '(')
  {
    HoldsCons(t, i, ts);
    HeadStarts(ts);
    HoldsAt(t, i, Head(ts), 0);
  }

  // ---------------------------------------------------------------------
  // Round trip
  // ---------------------------------------------------------------------

  /** Whatever the grammar can write is well formed. */
  lemma SpellWellFormed(ts: seq<Term>)
    requires Writable(ts) && ts != []
    ensures WellFormed(Spell(ts))
  {
    var s := Spell(ts);
    SpellShaped(ts);
    assert Balanced(s) by {
      HoldsRest(s, 0);
      assert s[0..] == s;
      StackAtRun(s, 0, s);
      SpellRun([], ts);
    }
    ShapedWellFormed(s);
  }

  /** The character rules of the validator follow from the shape. */
  lemma ShapedWellFormed(s: string)
    requires Shaped(s) && s != [] && Balanced(s)
    ensures WellFormed(s)
  {
    forall i | 0 <= i < |s| && IsLower(s[i]) ensures i > 0 && IsUpper(s[i - 1]) {
      if i > 0 {
        assert PairOk(s[i - 1], s[i]);
      }
    }
    forall i | 0 <= i < |s| && IsDigit(s[i]) ensures i > 0 && !IsOpen(s[i - 1]) {
      if i > 0 {
        assert PairOk(s[i - 1], s[i]);
      }
    }
    forall i | 0 < i < |s| && IsClose(s[i]) ensures !IsOpen(s[i - 1]) {
      assert PairOk(s[i - 1], s[i]);
    }
  }

  /** Parsing the written form of a term tree gives back the tree. */
  lemma ParseSpell(ts: seq<Term>)
    requires Writable(ts) && ts != []
    ensures Parse(Spell(ts)) == Ok(ts)
  {
    var s := Spell(ts);
    SpellWellFormed(ts);
    HoldsRest(s, 0);
    assert s[0..] == s;
    SpellParses(s, 0, ts, |s|);
  }
}
