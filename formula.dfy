/**
 * The grammar of a chemical formula: the characters that are ignored, the
 * validation rules a normalised formula must satisfy, and a recursive-descent
 * parser from the normalised string to a tree of terms.
 *
 *   Formula  := Term+
 *   Term     := (Symbol | Group) Quantity?
 *   Group    := '(' Formula ')' | '[' Formula ']'
 *   Symbol   := Uppercase Lowercase?
 *   Quantity := Digit+            (absent means 1)
 */
module Formula {
  import opened Wrappers

  predicate IsUpper(c: char) { 'A' <= c <= 'Z' }
  predicate IsLower(c: char) { 'a' <= c <= 'z' }
  predicate IsDigit(c: char) { '0' <= c <= '9' }
  predicate IsOpen(c: char) { c == '(' || c == '[' }
  predicate IsClose(c: char) { c == ')' || c == ']' }

  /** `close` is the closing bracket of the same kind as `open`. */
  predicate Matches(open: char, close: char)
  {
    (open == '(' && close == ')') || (open == '[' && close == ']')
  }

  predicate IsFormulaChar(c: char)
  {
    IsUpper(c) || IsLower(c) || IsDigit(c) || IsOpen(c) || IsClose(c)
  }

  /** Whitespace, `_`, `.`, `+`, `-` and `=` carry no meaning in a formula. */
  predicate IsIgnored(c: char)
  {
    c == ' ' || c == '\t' || c == '\n' || c == '\r' || c == '\U{000B}' || c == '\U{000C}' ||
    c == '_' || c == '.' || c == '+' || c == '-' || c == '='
  }

  // ---------------------------------------------------------------------
  // Normaliser
  // ---------------------------------------------------------------------

  /** Drops every ignored character and keeps the others in order. */
  function Normalize(raw: string): (t: string)
    ensures forall i | 0 <= i < |t| :: !IsIgnored(t[i])
    ensures |t| <= |raw|
  {
    if raw == [] then []
    else if IsIgnored(raw[0]) then Normalize(raw[1..])
    else [raw[0]] + Normalize(raw[1..])
  }

  lemma {:induction false} NormalizeAppend(a: string, b: string)
    ensures Normalize(a + b) == Normalize(a) + Normalize(b)
    decreases |a|
  {
    if a == [] {
      assert a + b == b;
    } else {
      assert (a + b)[0] == a[0] && (a + b)[1..] == a[1..] + b;
      NormalizeAppend(a[1..], b);
    }
  }

  /** A string without ignored characters is left exactly as it is. */
  lemma {:induction false} NormalizeKeepsClean(s: string)
    requires forall i | 0 <= i < |s| :: !IsIgnored(s[i])
    ensures Normalize(s) == s
    decreases |s|
  {
    if s != [] {
      NormalizeKeepsClean(s[1..]);
    }
  }

  /** An ignored character anywhere in the input does not change the result. */
  lemma NormalizeDropsIgnored(a: string, c: char, b: string)
    requires IsIgnored(c)
    ensures Normalize(a + [c] + b) == Normalize(a + b)
  {
    NormalizeAppend(a + [c], b);
    NormalizeAppend(a, [c]);
    NormalizeAppend(a, b);
  }

  /** Normalising keeps exactly the characters that are not ignored. */
  lemma {:induction false} NormalizeMembers(raw: string)
    ensures forall c :: c in Normalize(raw) <==> c in raw && !IsIgnored(c)
    decreases |raw|
  {
    if raw != [] {
      NormalizeMembers(raw[1..]);
      assert raw == [raw[0]] + raw[1..];
    }
  }

  lemma NormalizeIdempotent(raw: string)
    ensures Normalize(Normalize(raw)) == Normalize(raw)
  {
    NormalizeKeepsClean(Normalize(raw));
  }

  // ---------------------------------------------------------------------
  // Quantities
  // ---------------------------------------------------------------------

  predicate AllDigits(s: string)
  {
    forall i | 0 <= i < |s| :: IsDigit(s[i])
  }

  function DigitValue(c: char): (d: nat)
    requires IsDigit(c)
    ensures d < 10
  {
    c as int - '0' as int
  }

  /** The value of a run of decimal digits, most significant first. */
  function Decimal(ds: string): nat
    requires AllDigits(ds)
    decreases |ds|
  {
    if ds == [] then 0
    else Decimal(ds[..|ds| - 1]) * 10 + DigitValue(ds[|ds| - 1])
  }

  function DigitChar(d: nat): (c: char)
    requires d < 10
    ensures IsDigit(c) && DigitValue(c) == d
  {
    ('0' as int + d) as char
  }

  /** The canonical decimal spelling of `n`, without leading zeros. */
  function DecimalString(n: nat): (s: string)
    ensures |s| > 0 && AllDigits(s)
    decreases n
  {
    if n < 10 then [DigitChar(n)] else DecimalString(n / 10) + [DigitChar(n % 10)]
  }

  /** Reading a written quantity gives back the number that was written. */
  lemma {:induction false} DecimalRoundTrip(n: nat)
    ensures Decimal(DecimalString(n)) == n
    decreases n
  {
    if n >= 10 {
      var s := DecimalString(n);
      assert s[..|s| - 1] == DecimalString(n / 10);
      DecimalRoundTrip(n / 10);
    }
  }
  /** Every number's decimal writing reads back as that number. */
  lemma DecimalReadsBack()
    ensures forall n: nat :: Decimal(DecimalString(n)) == n
  {
    forall n: nat ensures Decimal(DecimalString(n)) == n {
      DecimalRoundTrip(n);
    }
  }


  // ---------------------------------------------------------------------
  // Validator
  // ---------------------------------------------------------------------

  /** Only letters, digits and the four brackets may remain after normalising. */
  predicate OnlyFormulaChars(t: string)
  {
    forall i | 0 <= i < |t| :: IsFormulaChar(t[i])
  }

  /**
   * A lowercase letter can only continue a symbol: it never starts the
   * formula and never follows a digit, a bracket or another lowercase letter.
   */
  predicate LowercaseContinuesSymbol(t: string)
  {
    forall i | 0 <= i < |t| :: IsLower(t[i]) ==> i > 0 && IsUpper(t[i - 1])
  }

  /** A digit never starts the formula and never directly follows an opening bracket. */
  predicate DigitsFollowUnit(t: string)
  {
    forall i | 0 <= i < |t| :: IsDigit(t[i]) ==> i > 0 && !IsOpen(t[i - 1])
  }

  /** No group is empty: an opening bracket is never directly closed. */
  predicate NoEmptyGroup(t: string)
  {
    forall i | 0 < i < |t| :: IsClose(t[i]) ==> !IsOpen(t[i - 1])
  }

  /** One step of the bracket stack; `None` when a close bracket has no matching open one. */
  function StackStep(st: seq<char>, c: char): Option<seq<char>>
  {
    if IsOpen(c) then Some(st + [c])
    else if IsClose(c) then
      if st != [] && Matches(st[|st| - 1], c) then Some(st[..|st| - 1]) else None
    else Some(st)
  }

  /** The stack of open brackets after reading `t[..k]`. */
  function StackAt(t: string, k: nat): Option<seq<char>>
    requires k <= |t|
    decreases k
  {
    if k == 0 then Some([])
    else match StackAt(t, k - 1)
      case None => None
      case Some(st) => StackStep(st, t[k - 1])
  }

  /** Every bracket is closed by one of its own kind, properly nested. */
  predicate Balanced(t: string)
  {
    StackAt(t, |t|) == Some([])
  }

  /**
   * The validation rules for a normalised formula. A valid formula starts
   * with a capital letter or an opening bracket and never ends with an
   * opening bracket.
   */
  function WellFormed(t: string): (ok: bool)
    ensures ok ==> |t| > 0 && (IsUpper(t[0]) || IsOpen(t[0])) && !IsOpen(t[|t| - 1])
  {
    if && |t| > 0
       && OnlyFormulaChars(t)
       && LowercaseContinuesSymbol(t)
       && DigitsFollowUnit(t)
       && NoEmptyGroup(t)
       && Balanced(t)
    then
      ValidEnds(t);
      true
    else false
  }

  lemma ValidEnds(t: string)
    requires |t| > 0 && OnlyFormulaChars(t) && LowercaseContinuesSymbol(t)
    requires DigitsFollowUnit(t) && Balanced(t)
    ensures IsUpper(t[0]) || IsOpen(t[0])
    ensures !IsOpen(t[|t| - 1])
  {
    assert IsFormulaChar(t[0]);
    if IsClose(t[0]) {
      assert StackAt(t, 1) == None;
      StackNoneStays(t, 1, |t|);
    }
    StackDefined(t, |t| - 1);
  }

  // ---------------------------------------------------------------------
  // Parser
  // ---------------------------------------------------------------------

  /** A parsed term: a symbol or a group, each with its multiplier. */
  datatype Term = Atom(symbol: string, quantity: nat) | Group(body: seq<Term>, quantity: nat)

  /** End of the symbol starting at `i`: one uppercase letter and an optional lowercase one. */
  function SymbolEnd(t: string, i: nat): (e: nat)
    requires i < |t|
    ensures i < e <= |t| && e <= i + 2
    ensures forall k | i < k < e :: IsLower(t[k])
    ensures e == i + 1 ==> e == |t| || !IsLower(t[e])
  {
    if i + 1 < |t| && IsLower(t[i + 1]) then i + 2 else i + 1
  }

  /** End of the maximal digit run starting at `i`. */
  function DigitsEnd(t: string, i: nat): (j: nat)
    requires i <= |t|
    ensures i <= j <= |t|
    ensures forall k | i <= k < j :: IsDigit(t[k])
    ensures j == |t| || !IsDigit(t[j])
    decreases |t| - i
  {
    if i < |t| && IsDigit(t[i]) then DigitsEnd(t, i + 1) else i
  }

  /** The multiplier written in `t[i..j]`; an empty run means 1. */
  function Quantity(t: string, i: nat, j: nat): (q: nat)
    requires i <= j <= |t|
    requires AllDigits(t[i..j])
    ensures i == j ==> q == 1
    ensures forall n: nat :: t[i..j] == DecimalString(n) ==> q == n
  {
    DecimalReadsBack();
    if i == j then 1 else Decimal(t[i..j])
  }

  /** Term*: parses terms from `i` until the end or a closing bracket. */
  function ParseTerms(t: string, i: nat): (r: Result<(seq<Term>, nat)>)
    requires i <= |t|
    ensures r.Ok? ==> i <= r.value.1 <= |t|
    decreases |t| - i, 1
  {
    if i == |t| || IsClose(t[i]) then Ok(([], i))
    else
      match ParseTerm(t, i)
      case Err => Err
      case Ok((term, j)) =>
        match ParseTerms(t, j)
        case Err => Err
        case Ok((rest, k)) => Ok(([term] + rest, k))
  }

  /** One term starting at `i`, with its trailing quantity. */
  function ParseTerm(t: string, i: nat): (r: Result<(Term, nat)>)
    requires i < |t|
    ensures r.Ok? ==> i < r.value.1 <= |t|
    decreases |t| - i, 0
  {
    if IsUpper(t[i]) then
      var e := SymbolEnd(t, i);
      var k := DigitsEnd(t, e);
      Ok((Atom(t[i..e], Quantity(t, e, k)), k))
    else if IsOpen(t[i]) then
      match ParseTerms(t, i + 1)
      case Err => Err
      case Ok((body, j)) =>
        if body == [] || j == |t| || !Matches(t[i], t[j]) then Err
        else
          var k := DigitsEnd(t, j + 1);
          Ok((Group(body, Quantity(t, j + 1, k)), k))
    else Err
  }

  /** Formula: at least one term, and the whole string consumed. */
  function ParseFormula(t: string): (r: Result<seq<Term>>)
    ensures r.Ok? ==> r.value != [] && |t| > 0
  {
    match ParseTerms(t, 0)
    case Err => Err
    case Ok((terms, j)) => if terms == [] || j != |t| then Err else Ok(terms)
  }

  /** The validator followed by the parser. */
  function Parse(t: string): (r: Result<seq<Term>>)
    ensures r.Ok? <==> WellFormed(t)
    ensures r.Ok? ==> r.value != []
  {
    if WellFormed(t) then
      ParseFormulaTotal(t);
      ParseFormula(t)
    else Err
  }

  // ---------------------------------------------------------------------
  // The parser accepts exactly the well-formed strings
  // ---------------------------------------------------------------------

  lemma {:induction false} StackNoneStays(t: string, a: nat, b: nat)
    requires a <= b <= |t| && StackAt(t, a) == None
    ensures StackAt(t, b) == None
    decreases b - a
  {
    if b > a {
      StackNoneStays(t, a, b - 1);
    }
  }

  lemma StackDefined(t: string, k: nat)
    requires Balanced(t) && k <= |t|
    ensures StackAt(t, k).Some?
  {
    if StackAt(t, k) == None {
      StackNoneStays(t, k, |t|);
    }
  }

  /** Letters and digits leave the bracket stack as it is. */
  lemma {:induction false} StackSkips(t: string, a: nat, b: nat)
    requires a <= b <= |t|
    requires forall k | a <= k < b :: !IsOpen(t[k]) && !IsClose(t[k])
    ensures StackAt(t, b) == StackAt(t, a)
    decreases b - a
  {
    if b > a {
      StackSkips(t, a, b - 1);
    }
  }

  /** Positions where a term may begin: neither a lowercase letter nor a digit. */
  predicate AtTermStart(t: string, i: nat)
    requires i <= |t|
  {
    i == |t| || (!IsLower(t[i]) && !IsDigit(t[i]))
  }

  /**
   * On a well-formed string the term parser never fails, and it stops where
   * the bracket stack is back to what it was (at the end of the string or
   * at a closing bracket).
   */
  lemma {:induction false} ParseTermsTotal(t: string, i: nat)
    requires WellFormed(t) && i <= |t| && AtTermStart(t, i)
    ensures ParseTerms(t, i).Ok?
    ensures var j := ParseTerms(t, i).value.1;
      StackAt(t, j) == StackAt(t, i) && (j == |t| || IsClose(t[j]))
    decreases |t| - i, 2
  {
    if i < |t| && !IsClose(t[i]) {
      ParseTermTotal(t, i);
      var j := ParseTerm(t, i).value.1;
      ParseTermsTotal(t, j);
    }
  }

  lemma {:induction false} ParseTermTotal(t: string, i: nat)
    requires WellFormed(t) && i < |t| && AtTermStart(t, i) && !IsClose(t[i])
    ensures ParseTerm(t, i).Ok?
    ensures var j := ParseTerm(t, i).value.1;
      StackAt(t, j) == StackAt(t, i) && AtTermStart(t, j)
    decreases |t| - i, 1
  {
    assert IsFormulaChar(t[i]);
    if IsUpper(t[i]) {
      AtomTotal(t, i);
    } else {
      GroupTotal(t, i);
    }
  }

  lemma AtomTotal(t: string, i: nat)
    requires WellFormed(t) && i < |t| && IsUpper(t[i])
    ensures ParseTerm(t, i).Ok?
    ensures var j := ParseTerm(t, i).value.1;
      StackAt(t, j) == StackAt(t, i) && AtTermStart(t, j)
  {
    var e := SymbolEnd(t, i);
    var k := DigitsEnd(t, e);
    StackSkips(t, i, k);
  }

  lemma {:induction false} GroupTotal(t: string, i: nat)
    requires WellFormed(t) && i < |t| && IsOpen(t[i])
    ensures ParseTerm(t, i).Ok?
    ensures var j := ParseTerm(t, i).value.1;
      StackAt(t, j) == StackAt(t, i) && AtTermStart(t, j)
    decreases |t| - i, 0
  {
    GroupOpens(t, i);
    ParseTermsTotal(t, i + 1);
    GroupFinishes(t, i, ParseTerms(t, i + 1).value.0, ParseTerms(t, i + 1).value.1);
  }

  /** Once the body has parsed, the group closes and takes its quantity. */
  lemma GroupFinishes(t: string, i: nat, body: seq<Term>, j: nat)
    requires Balanced(t) && LowercaseContinuesSymbol(t)
    requires i + 1 < |t| && IsOpen(t[i]) && !IsClose(t[i + 1])
    requires StackAt(t, i).Some? && StackAt(t, i + 1) == Some(StackAt(t, i).value + [t[i]])
    requires ParseTerms(t, i + 1) == Ok((body, j))
    requires StackAt(t, j) == StackAt(t, i + 1) && (j == |t| || IsClose(t[j]))
    ensures ParseTerm(t, i).Ok?
    ensures var j := ParseTerm(t, i).value.1;
      StackAt(t, j) == StackAt(t, i) && AtTermStart(t, j)
  {
    GroupCloses(t, i, j);
    assert body != [];
    var k := DigitsEnd(t, j + 1);
    StackSkips(t, j + 1, k);
    GroupQuantityEnd(t, j, k);
    GroupParses(t, i, body, j);
  }

  /** After an opening bracket a non-empty body begins. */
  lemma GroupOpens(t: string, i: nat)
    requires WellFormed(t) && i < |t| && IsOpen(t[i])
    ensures i + 1 < |t| && AtTermStart(t, i + 1) && !IsClose(t[i + 1])
    ensures StackAt(t, i).Some? && StackAt(t, i + 1) == Some(StackAt(t, i).value + [t[i]])
  {
    StackDefined(t, i);
  }

  /** The body of a group ends at the closing bracket of its own kind. */
  lemma GroupCloses(t: string, i: nat, j: nat)
    requires Balanced(t) && i < j <= |t| && IsOpen(t[i])
    requires StackAt(t, i).Some? && StackAt(t, j) == Some(StackAt(t, i).value + [t[i]])
    requires j == |t| || IsClose(t[j])
    ensures j < |t| && Matches(t[i], t[j]) && StackAt(t, j + 1) == StackAt(t, i)
  {
    assert j != |t|;
    StackDefined(t, j + 1);
  }

  lemma GroupQuantityEnd(t: string, j: nat, k: nat)
    requires LowercaseContinuesSymbol(t) && j < k <= |t| && IsClose(t[j])
    requires k == DigitsEnd(t, j + 1)
    ensures AtTermStart(t, k)
  {
    if k < |t| {
      assert IsClose(t[k - 1]) || IsDigit(t[k - 1]);
    }
  }

  lemma GroupParses(t: string, i: nat, body: seq<Term>, j: nat)
    requires i < j < |t| && IsOpen(t[i]) && Matches(t[i], t[j]) && body != []
    requires ParseTerms(t, i + 1) == Ok((body, j))
    ensures var k := DigitsEnd(t, j + 1);
      ParseTerm(t, i) == Ok((Group(body, Quantity(t, j + 1, k)), k))
  {
    assert !IsUpper(t[i]);
  }

  /** The same, with the end of the group and its multiplier named. */
  lemma GroupQuantified(t: string, i: nat, body: seq<Term>, q: nat, j: nat, k: nat)
    requires i < j < |t| && IsOpen(t[i]) && Matches(t[i], t[j]) && body != []
    requires ParseTerms(t, i + 1) == Ok((body, j))
    requires k == DigitsEnd(t, j + 1) && q == Quantity(t, j + 1, k)
    ensures ParseTerm(t, i) == Ok((Group(body, q), k))
  {
    GroupParses(t, i, body, j);
  }

  /** The validator is the whole story: a well-formed string always parses. */
  lemma ParseFormulaTotal(t: string)
    requires WellFormed(t)
    ensures ParseFormula(t).Ok?
  {
    ParseTermsTotal(t, 0);
    var j := ParseTerms(t, 0).value.1;
    if j < |t| {
      StackDefined(t, j + 1);
      assert false;
    }
    StackDefined(t, 1);
  }

  // ---------------------------------------------------------------------
  // Whatever the parser accepts satisfies the validation rules
  // ---------------------------------------------------------------------

  /** The character rules of the validator at position `k`. */
  predicate RulesAt(t: string, k: nat)
    requires k < |t|
  {
    && IsFormulaChar(t[k])
    && (IsLower(t[k]) ==> k > 0 && IsUpper(t[k - 1]))
    && (IsDigit(t[k]) ==> k > 0 && !IsOpen(t[k - 1]))
    && (IsClose(t[k]) && k > 0 ==> !IsOpen(t[k - 1]))
  }

  predicate RulesIn(t: string, i: nat, j: nat)
    requires i <= j <= |t|
  {
    forall k | i <= k < j :: RulesAt(t, k)
  }

  /**
   * A successful parse of terms from `i` to `j` reads only characters that
   * obey the rules, leaves the bracket stack as it found it, and stops at
   * the end or at a closing bracket; what it read does not end in an
   * opening bracket.
   */
  lemma {:induction false} ParseTermsSound(t: string, i: nat)
    requires i <= |t| && ParseTerms(t, i).Ok? && StackAt(t, i).Some?
    ensures var (ts, j) := ParseTerms(t, i).value;
      && RulesIn(t, i, j) && StackAt(t, j) == StackAt(t, i)
      && (j == |t| || IsClose(t[j]))
      && (ts != [] ==> i < j && !IsOpen(t[j - 1]))
    decreases |t| - i, 1
  {
    if i < |t| && !IsClose(t[i]) {
      ParseTermSound(t, i);
      ParseTermsSound(t, ParseTerm(t, i).value.1);
    }
  }

  lemma {:induction false} ParseTermSound(t: string, i: nat)
    requires i < |t| && ParseTerm(t, i).Ok? && StackAt(t, i).Some?
    ensures var j := ParseTerm(t, i).value.1;
      RulesIn(t, i, j) && StackAt(t, j) == StackAt(t, i) && !IsOpen(t[j - 1])
    decreases |t| - i, 0
  {
    var st := StackAt(t, i).value;
    if IsUpper(t[i]) {
      AtomSound(t, i);
    } else {
      assert StackAt(t, i + 1) == Some(st + [t[i]]);
      ParseTermsSound(t, i + 1);
      GroupSound(t, i, st);
    }
  }

  lemma AtomSound(t: string, i: nat)
    requires i < |t| && IsUpper(t[i])
    ensures ParseTerm(t, i).Ok?
    ensures var j := ParseTerm(t, i).value.1;
      RulesIn(t, i, j) && StackAt(t, j) == StackAt(t, i) && !IsOpen(t[j - 1])
  {
    var e := SymbolEnd(t, i);
    var k := DigitsEnd(t, e);
    StackSkips(t, i, k);
    forall m | i <= m < k ensures RulesAt(t, m) {
      if m > e {
        assert IsDigit(t[m - 1]);
      }
    }
  }

  lemma GroupSound(t: string, i: nat, st: seq<char>)
    requires i < |t| && IsOpen(t[i]) && ParseTerm(t, i).Ok?
    requires StackAt(t, i) == Some(st) && StackAt(t, i + 1) == Some(st + [t[i]])
    requires ParseTerms(t, i + 1).Ok?
    requires var (body, j) := ParseTerms(t, i + 1).value;
      && RulesIn(t, i + 1, j) && StackAt(t, j) == StackAt(t, i + 1)
      && (body != [] ==> i + 1 < j && !IsOpen(t[j - 1]))
    ensures var j := ParseTerm(t, i).value.1;
      RulesIn(t, i, j) && StackAt(t, j) == StackAt(t, i) && !IsOpen(t[j - 1])
  {
    GroupAccepted(t, i);
    var (body, j) := ParseTerms(t, i + 1).value;
    var k := DigitsEnd(t, j + 1);
    StackCloses(t, j, st, t[i]);
    StackSkips(t, j + 1, k);
    assert StackAt(t, k) == Some(st);
    GroupRules(t, i, j, k);
  }

  /** A group the parser accepts is closed by a matching bracket, then takes its digits. */
  lemma GroupAccepted(t: string, i: nat)
    requires i < |t| && IsOpen(t[i]) && ParseTerm(t, i).Ok?
    ensures ParseTerms(t, i + 1).Ok?
    ensures var (body, j) := ParseTerms(t, i + 1).value;
      && body != [] && j < |t| && Matches(t[i], t[j])
      && ParseTerm(t, i).value.1 == DigitsEnd(t, j + 1)
  {
  }

  lemma StackCloses(t: string, j: nat, st: seq<char>, open: char)
    requires j < |t| && StackAt(t, j) == Some(st + [open]) && IsClose(t[j]) && Matches(open, t[j])
    ensures StackAt(t, j + 1) == Some(st)
  {
    assert (st + [open])[..|st|] == st;
  }

  lemma GroupRules(t: string, i: nat, j: nat, k: nat)
    requires i < j < k <= |t| && IsOpen(t[i]) && IsClose(t[j]) && k == DigitsEnd(t, j + 1)
    requires RulesIn(t, i + 1, j) && !IsOpen(t[j - 1])
    ensures RulesIn(t, i, k) && !IsOpen(t[k - 1])
  {
    forall m | i <= m < k ensures RulesAt(t, m) {
      if m > j + 1 {
        assert IsDigit(t[m - 1]);
      }
    }
  }

  /** The parser on its own refuses every formula the validator refuses. */
  lemma ParseFormulaSound(t: string)
    requires ParseFormula(t).Ok?
    ensures WellFormed(t)
  {
    ParseTermsSound(t, 0);
    assert RulesIn(t, 0, |t|);
    RulesWellFormed(t);
  }

  lemma RulesWellFormed(t: string)
    requires RulesIn(t, 0, |t|)
    ensures OnlyFormulaChars(t) && LowercaseContinuesSymbol(t)
    ensures DigitsFollowUnit(t) && NoEmptyGroup(t)
  {
    forall k | 0 <= k < |t| ensures IsFormulaChar(t[k]) && !IsLower(t[0]) && !IsDigit(t[0]) {
      assert RulesAt(t, k) && RulesAt(t, 0);
    }
    forall k | 0 < k < |t|
      ensures IsLower(t[k]) ==> IsUpper(t[k - 1])
      ensures IsDigit(t[k]) ==> !IsOpen(t[k - 1])
      ensures IsClose(t[k]) ==> !IsOpen(t[k - 1])
    {
      assert RulesAt(t, k);
    }
  }

  /**
   * The validator and the grammar agree: the parser alone succeeds exactly
   * on the well-formed strings, so checking first changes nothing.
   */
  lemma ParseAcceptsExactly(t: string)
    ensures ParseFormula(t).Ok? <==> WellFormed(t)
    ensures Parse(t) == ParseFormula(t)
  {
    if WellFormed(t) {
      ParseFormulaTotal(t);
    }
    if ParseFormula(t).Ok? {
      ParseFormulaSound(t);
    }
  }

  // ---------------------------------------------------------------------
  // Square brackets behave exactly like round ones
  // ---------------------------------------------------------------------

  /** Exchanges the bracket kinds: `(` with `[` and `)` with `]`. */
  function SwapKind(c: char): (d: char)
    ensures IsOpen(d) == IsOpen(c) && IsClose(d) == IsClose(c)
    ensures !IsOpen(c) && !IsClose(c) ==> d == c
  {
    if c == '(' then '[' else if c == '[' then '('
    else if c == ')' then ']' else if c == ']' then ')'
    else c
  }

  /** Every bracket of `s` replaced by one of the other kind. */
  function SwapBrackets(s: string): (r: string)
    ensures |r| == |s|
  {
    seq(|s|, i requires 0 <= i < |s| => SwapKind(s[i]))
  }

  lemma SwapKindMatches(a: char, b: char)
    ensures Matches(SwapKind(a), SwapKind(b)) == Matches(a, b)
  {
  }

  lemma {:induction false} NormalizeSwap(raw: string)
    ensures Normalize(SwapBrackets(raw)) == SwapBrackets(Normalize(raw))
    decreases |raw|
  {
    if raw != [] {
      assert SwapBrackets(raw) == [SwapKind(raw[0])] + SwapBrackets(raw[1..]);
      NormalizeSwap(raw[1..]);
      if !IsIgnored(raw[0]) {
        var n := [raw[0]] + Normalize(raw[1..]);
        assert n[1..] == Normalize(raw[1..]);
        assert SwapBrackets(n) == [SwapKind(n[0])] + SwapBrackets(n[1..]);
      }
    }
  }

  /** The bracket stack of the swapped string, given the stack of the original. */
  function SwapStack(st: Option<seq<char>>): Option<seq<char>>
  {
    match st
    case None => None
    case Some(s) => Some(SwapBrackets(s))
  }

  lemma SwapStackStep(st: seq<char>, c: char)
    ensures StackStep(SwapBrackets(st), SwapKind(c)) == SwapStack(StackStep(st, c))
  {
    if IsOpen(c) {
      assert SwapBrackets(st + [c]) == SwapBrackets(st) + [SwapKind(c)];
    } else if IsClose(c) && st != [] {
      SwapKindMatches(st[|st| - 1], c);
      assert SwapBrackets(st[..|st| - 1]) == SwapBrackets(st)[..|st| - 1];
    }
  }

  lemma {:induction false} StackAtSwap(t: string, k: nat)
    requires k <= |t|
    ensures StackAt(SwapBrackets(t), k) == SwapStack(StackAt(t, k))
    decreases k
  {
    if k > 0 {
      StackAtSwap(t, k - 1);
      if StackAt(t, k - 1).Some? {
        SwapStackStep(StackAt(t, k - 1).value, t[k - 1]);
      }
    }
  }

  lemma WellFormedSwap(t: string)
    ensures WellFormed(SwapBrackets(t)) == WellFormed(t)
  {
    var u := SwapBrackets(t);
    StackAtSwap(t, |t|);
    assert Balanced(u) == Balanced(t);
    forall i | 0 <= i < |t|
      ensures IsFormulaChar(u[i]) == IsFormulaChar(t[i])
      ensures IsUpper(u[i]) == IsUpper(t[i]) && IsLower(u[i]) == IsLower(t[i])
      ensures IsDigit(u[i]) == IsDigit(t[i])
    {
    }
    assert OnlyFormulaChars(u) == OnlyFormulaChars(t);
    assert LowercaseContinuesSymbol(u) == LowercaseContinuesSymbol(t);
    assert DigitsFollowUnit(u) == DigitsFollowUnit(t);
    assert NoEmptyGroup(u) == NoEmptyGroup(t);
  }

  /** Position `k` of `u` is position `k` of `t` with its bracket kind exchanged. */
  predicate SwappedAt(t: string, u: string, k: nat)
    requires k < |t| && k < |u|
  {
    u[k] == SwapKind(t[k])
  }

  /** `u` is `t` with every bracket kind exchanged. */
  predicate Swapped(t: string, u: string)
  {
    |u| == |t| && forall k | 0 <= k < |t| :: SwappedAt(t, u, k)
  }

  lemma SwappedBrackets(t: string)
    ensures Swapped(t, SwapBrackets(t))
  {
    forall k | 0 <= k < |t| ensures SwappedAt(t, SwapBrackets(t), k) {
    }
  }

  lemma SwappedChar(t: string, u: string, k: nat)
    requires Swapped(t, u) && k < |t|
    ensures u[k] == SwapKind(t[k])
  {
    assert SwappedAt(t, u, k);
  }

  lemma {:induction false} DigitsEndSwapped(t: string, u: string, i: nat)
    requires Swapped(t, u) && i <= |t|
    ensures DigitsEnd(u, i) == DigitsEnd(t, i)
    decreases |t| - i
  {
    if i < |t| {
      SwappedChar(t, u, i);
      DigitsEndSwapped(t, u, i + 1);
    }
  }

  /** Neither letters nor digits are touched by the swap. */
  lemma SwappedSlice(t: string, u: string, i: nat, j: nat)
    requires Swapped(t, u) && i <= j <= |t|
    requires forall k | i <= k < j :: !IsOpen(t[k]) && !IsClose(t[k])
    ensures u[i..j] == t[i..j]
  {
    forall k | i <= k < j ensures u[k] == t[k] {
      SwappedChar(t, u, k);
    }
  }

  lemma {:induction false} ParseTermsSwapped(t: string, u: string, i: nat)
    requires Swapped(t, u) && i <= |t|
    ensures ParseTerms(u, i) == ParseTerms(t, i)
    decreases |t| - i, 1
  {
    if i < |t| {
      SwappedChar(t, u, i);
      if !IsClose(t[i]) {
        ParseTermSwapped(t, u, i);
        if ParseTerm(t, i).Ok? {
          ParseTermsSwapped(t, u, ParseTerm(t, i).value.1);
        }
      }
    }
  }

  lemma {:induction false} ParseTermSwapped(t: string, u: string, i: nat)
    requires Swapped(t, u) && i < |t|
    ensures ParseTerm(u, i) == ParseTerm(t, i)
    decreases |t| - i, 0
  {
    SwappedChar(t, u, i);
    if IsUpper(t[i]) {
      AtomSwapped(t, u, i);
    } else if IsOpen(t[i]) {
      ParseTermsSwapped(t, u, i + 1);
      GroupSwapped(t, u, i);
    }
  }

  lemma AtomSwapped(t: string, u: string, i: nat)
    requires Swapped(t, u) && i < |t| && IsUpper(t[i]) && u[i] == t[i]
    ensures ParseTerm(u, i) == ParseTerm(t, i)
  {
    var e := SymbolEnd(t, i);
    if i + 1 < |t| {
      SwappedChar(t, u, i + 1);
    }
    assert SymbolEnd(u, i) == e;
    var k := DigitsEnd(t, e);
    DigitsEndSwapped(t, u, e);
    SwappedSlice(t, u, i, e);
    SwappedSlice(t, u, e, k);
    QuantitySlice(t, u, e, k);
  }

  lemma GroupSwapped(t: string, u: string, i: nat)
    requires Swapped(t, u) && i < |t| && IsOpen(t[i]) && u[i] == SwapKind(t[i])
    requires ParseTerms(u, i + 1) == ParseTerms(t, i + 1)
    ensures ParseTerm(u, i) == ParseTerm(t, i)
  {
    if ParseTerms(t, i + 1).Ok? {
      var (body, j) := ParseTerms(t, i + 1).value;
      if j < |t| {
        SwappedChar(t, u, j);
        SwapKindMatches(t[i], t[j]);
        if body != [] && Matches(t[i], t[j]) {
          GroupSwappedOk(t, u, i, body, j);
        }
      }
    }
  }

  lemma GroupSwappedOk(t: string, u: string, i: nat, body: seq<Term>, j: nat)
    requires Swapped(t, u) && i < j < |t| && body != []
    requires IsOpen(t[i]) && Matches(t[i], t[j]) && IsOpen(u[i]) && Matches(u[i], u[j])
    requires ParseTerms(t, i + 1) == Ok((body, j)) && ParseTerms(u, i + 1) == Ok((body, j))
    ensures ParseTerm(u, i) == ParseTerm(t, i)
  {
    var k := DigitsEnd(t, j + 1);
    DigitsEndSwapped(t, u, j + 1);
    SwappedSlice(t, u, j + 1, k);
    GroupSame(t, u, i, body, j, k);
  }

  /** The multiplier depends only on the digits it is read from. */
  lemma QuantitySlice(t: string, u: string, a: nat, b: nat)
    requires a <= b <= |t| && b <= |u| && AllDigits(t[a..b]) && u[a..b] == t[a..b]
    ensures AllDigits(u[a..b]) && Quantity(u, a, b) == Quantity(t, a, b)
  {
  }

  /** Two texts that agree on a group's brackets, body and multiplier parse it alike. */
  lemma GroupSame(t: string, u: string, i: nat, body: seq<Term>, j: nat, k: nat)
    requires i < j < |t| && IsOpen(t[i]) && Matches(t[i], t[j]) && body != []
    requires j < |u| && IsOpen(u[i]) && Matches(u[i], u[j])
    requires ParseTerms(t, i + 1) == Ok((body, j)) && ParseTerms(u, i + 1) == Ok((body, j))
    requires k == DigitsEnd(t, j + 1) && k == DigitsEnd(u, j + 1) && u[j + 1..k] == t[j + 1..k]
    ensures ParseTerm(u, i) == ParseTerm(t, i)
  {
    var q := Quantity(t, j + 1, k);
    QuantitySlice(t, u, j + 1, k);
    GroupQuantified(t, i, body, q, j, k);
    GroupQuantified(u, i, body, q, j, k);
  }

  /** Exchanging the bracket kinds changes neither acceptance nor the parse. */
  lemma ParseSwap(t: string)
    ensures Parse(SwapBrackets(t)) == Parse(t)
  {
    WellFormedSwap(t);
    SwappedBrackets(t);
    ParseTermsSwapped(t, SwapBrackets(t), 0);
  }

  // ---------------------------------------------------------------------
  // Brackets of either kind, mixed freely
  // ---------------------------------------------------------------------

  /** A bracket written as its round counterpart; every other character kept. */
  function RoundKind(c: char): (d: char)
    ensures IsOpen(c) ==> d == '('
    ensures IsClose(c) ==> d == ')'
    ensures !IsOpen(c) && !IsClose(c) ==> d == c
  {
    if c == '[' then '(' else if c == ']' then ')' else c
  }

  /** Every square bracket of `s` replaced by a round one. */
  function RoundBrackets(s: string): (r: string)
    ensures |r| == |s|
    ensures forall k | 0 <= k < |s| :: IsOpen(s[k]) ==> r[k] == '('
    ensures forall k | 0 <= k < |s| :: IsClose(s[k]) ==> r[k] == ')'
    ensures forall k | 0 <= k < |s| :: !IsOpen(s[k]) && !IsClose(s[k]) ==> r[k] == s[k]
  {
    seq(|s|, i requires 0 <= i < |s| => RoundKind(s[i]))
  }

  /** Position `k` holds the same character in `t` and `u`, up to the bracket kind. */
  predicate AlikeAt(t: string, u: string, k: nat)
    requires k < |t| && k < |u|
  {
    RoundKind(u[k]) == RoundKind(t[k])
  }

  /** `t` and `u` differ at most in which kind of bracket stands where. */
  predicate Alike(t: string, u: string)
  {
    |u| == |t| && forall k | 0 <= k < |t| :: AlikeAt(t, u, k)
  }

  lemma RoundedAlike(t: string, u: string)
    requires RoundBrackets(t) == RoundBrackets(u)
    ensures Alike(t, u)
  {
    forall k | 0 <= k < |t| ensures AlikeAt(t, u, k) {
      assert RoundBrackets(t)[k] == RoundBrackets(u)[k];
    }
  }

  lemma AlikeChar(t: string, u: string, k: nat)
    requires Alike(t, u) && k < |t|
    ensures IsOpen(u[k]) == IsOpen(t[k]) && IsClose(u[k]) == IsClose(t[k])
    ensures !IsOpen(t[k]) && !IsClose(t[k]) ==> u[k] == t[k]
  {
    assert AlikeAt(t, u, k);
  }

  lemma {:induction false} DigitsEndAlike(t: string, u: string, i: nat)
    requires Alike(t, u) && i <= |t|
    ensures DigitsEnd(u, i) == DigitsEnd(t, i)
    decreases |t| - i
  {
    if i < |t| {
      AlikeChar(t, u, i);
      DigitsEndAlike(t, u, i + 1);
    }
  }

  /** Away from the brackets the two texts are the same. */
  lemma AlikeSlice(t: string, u: string, i: nat, j: nat)
    requires Alike(t, u) && i <= j <= |t|
    requires forall k | i <= k < j :: !IsOpen(t[k]) && !IsClose(t[k])
    ensures u[i..j] == t[i..j]
  {
    forall k | i <= k < j ensures u[k] == t[k] {
      AlikeChar(t, u, k);
    }
  }

  lemma {:induction false} ParseTermsAlike(t: string, u: string, i: nat)
    requires Alike(t, u) && i <= |t|
    requires ParseTerms(t, i).Ok? && ParseTerms(u, i).Ok?
    ensures ParseTerms(u, i) == ParseTerms(t, i)
    decreases |t| - i, 1
  {
    if i < |t| {
      AlikeChar(t, u, i);
      if !IsClose(t[i]) {
        ParseTermAlike(t, u, i);
        ParseTermsAlike(t, u, ParseTerm(t, i).value.1);
      }
    }
  }

  lemma {:induction false} ParseTermAlike(t: string, u: string, i: nat)
    requires Alike(t, u) && i < |t|
    requires ParseTerm(t, i).Ok? && ParseTerm(u, i).Ok?
    ensures ParseTerm(u, i) == ParseTerm(t, i)
    decreases |t| - i, 0
  {
    AlikeChar(t, u, i);
    if IsUpper(t[i]) {
      AtomAlike(t, u, i);
    } else {
      GroupAccepted(t, i);
      GroupAccepted(u, i);
      ParseTermsAlike(t, u, i + 1);
      GroupAlike(t, u, i);
    }
  }

  lemma GroupAlike(t: string, u: string, i: nat)
    requires Alike(t, u) && i < |t| && IsOpen(t[i]) && IsOpen(u[i])
    requires ParseTerm(t, i).Ok? && ParseTerm(u, i).Ok?
    requires ParseTerms(t, i + 1).Ok? && ParseTerms(u, i + 1) == ParseTerms(t, i + 1)
    ensures ParseTerm(u, i) == ParseTerm(t, i)
  {
    GroupAccepted(t, i);
    GroupAccepted(u, i);
    var (body, j) := ParseTerms(t, i + 1).value;
    var k := DigitsEnd(t, j + 1);
    DigitsEndAlike(t, u, j + 1);
    AlikeSlice(t, u, j + 1, k);
    GroupSame(t, u, i, body, j, k);
  }

  lemma AtomAlike(t: string, u: string, i: nat)
    requires Alike(t, u) && i < |t| && IsUpper(t[i]) && u[i] == t[i]
    ensures ParseTerm(u, i) == ParseTerm(t, i)
  {
    var e := SymbolEnd(t, i);
    if i + 1 < |t| {
      AlikeChar(t, u, i + 1);
    }
    assert SymbolEnd(u, i) == e;
    var k := DigitsEnd(t, e);
    DigitsEndAlike(t, u, e);
    AlikeSlice(t, u, i, e);
    AlikeSlice(t, u, e, k);
    QuantitySlice(t, u, e, k);
  }

  /**
   * Two valid formulas that differ only in which kind of bracket stands
   * where parse alike: each bracket pair may be round or square on its own.
   */
  lemma ParseAlike(t: string, u: string)
    requires WellFormed(t) && WellFormed(u)
    requires RoundBrackets(t) == RoundBrackets(u)
    ensures Parse(u) == Parse(t)
  {
    ParseFormulaTotal(t);
    ParseFormulaTotal(u);
    RoundedAlike(t, u);
    ParseTermsAlike(t, u, 0);
  }

  lemma {:induction false} NormalizeRound(raw: string)
    ensures Normalize(RoundBrackets(raw)) == RoundBrackets(Normalize(raw))
    decreases |raw|
  {
    if raw != [] {
      assert raw == [raw[0]] + raw[1..];
      RoundPrepend(raw[0], raw[1..]);
      NormalizeRound(raw[1..]);
      if !IsIgnored(raw[0]) {
        RoundPrepend(raw[0], Normalize(raw[1..]));
      }
    }
  }

  lemma RoundPrepend(c: char, s: string)
    ensures RoundBrackets([c] + s) == [RoundKind(c)] + RoundBrackets(s)
  {
    var r := [RoundKind(c)] + RoundBrackets(s);
    forall k | 0 <= k < |s| + 1 ensures RoundBrackets([c] + s)[k] == r[k] {
      if k > 0 {
        assert ([c] + s)[k] == s[k - 1];
      }
    }
  }

  lemma RoundStackStep(st: seq<char>, c: char)
    requires StackStep(st, c).Some?
    ensures StackStep(RoundBrackets(st), RoundKind(c)) == Some(RoundBrackets(StackStep(st, c).value))
  {
    if IsOpen(c) {
      assert RoundBrackets(st + [c]) == RoundBrackets(st) + [RoundKind(c)];
    } else if IsClose(c) {
      assert RoundBrackets(st[..|st| - 1]) == RoundBrackets(st)[..|st| - 1];
    }
  }

  /** Wherever the original's brackets are in order, the rounded text's are too. */
  lemma {:induction false} StackAtRound(t: string, k: nat)
    requires k <= |t| && StackAt(t, k).Some?
    ensures StackAt(RoundBrackets(t), k) == Some(RoundBrackets(StackAt(t, k).value))
    decreases k
  {
    if k > 0 {
      StackAtRound(t, k - 1);
      RoundStackStep(StackAt(t, k - 1).value, t[k - 1]);
    }
  }

  /** Rounding the brackets of a valid formula leaves it valid. */
  lemma WellFormedRound(t: string)
    requires WellFormed(t)
    ensures WellFormed(RoundBrackets(t))
  {
    var u := RoundBrackets(t);
    StackAtRound(t, |t|);
    assert RoundBrackets([]) == [];
    forall i | 0 <= i < |t|
      ensures IsFormulaChar(u[i]) && IsOpen(u[i]) == IsOpen(t[i])
      ensures IsUpper(u[i]) == IsUpper(t[i]) && IsLower(u[i]) == IsLower(t[i])
      ensures IsDigit(u[i]) == IsDigit(t[i])
    {
    }
    assert OnlyFormulaChars(u);
    assert LowercaseContinuesSymbol(u);
    assert DigitsFollowUnit(u);
    assert NoEmptyGroup(u);
  }

  /** A valid formula parses the same once all its brackets are round. */
  lemma ParseRound(t: string)
    requires WellFormed(t)
    ensures Parse(RoundBrackets(t)) == Parse(t)
  {
    var u := RoundBrackets(t);
    WellFormedRound(t);
    forall k | 0 <= k < |t| ensures AlikeAt(t, u, k) {
    }
    ParseFormulaTotal(t);
    ParseFormulaTotal(u);
    ParseTermsAlike(t, u, 0);
  }
}
