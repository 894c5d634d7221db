/**
 * The display transform of the active-compound view: every maximal run of
 * decimal digits in the formula is wrapped in `<sub>` ... `</sub>`, the
 * effect of replacing the global pattern `[0-9]+` by `<sub>$&</sub>`.
 */
module Subscript {
  import opened Formula

  const SubOpen: string := "<sub>"
  const SubClose: string := "</sub>"

  /** One digit run with its tags. */
  function Wrap(d: string): string
  {
    SubOpen + d + SubClose
  }

  /** Length of the digit run at the front of `s`. */
  function DigitPrefix(s: string): (n: nat)
    ensures n <= |s|
    ensures forall i | 0 <= i < n :: IsDigit(s[i])
    ensures n == |s| || !IsDigit(s[n])
    decreases |s|
  {
    if s != [] && IsDigit(s[0]) then 1 + DigitPrefix(s[1..]) else 0
  }

  /** The formula with each maximal digit run wrapped in subscript tags. */
  function Subscript(s: string): (r: string)
    ensures |r| >= |s|
    decreases |s|
  {
    if s == [] then []
    else if IsDigit(s[0]) then
      var n := DigitPrefix(s);
      Wrap(s[..n]) + Subscript(s[n..])
    else [s[0]] + Subscript(s[1..])
  }

  // ---------------------------------------------------------------------
  // Characterisation on concatenations
  // ---------------------------------------------------------------------

  lemma {:induction false} DigitPrefixOfRun(d: string, rest: string)
    requires d != [] && AllDigits(d)
    requires rest == [] || !IsDigit(rest[0])
    ensures DigitPrefix(d + rest) == |d|
    decreases |d|
  {
    assert (d + rest)[1..] == d[1..] + rest;
    if |d| == 1 {
      assert d[1..] + rest == rest;
    } else {
      DigitPrefixOfRun(d[1..], rest);
    }
  }

  /** A maximal digit run at the front is wrapped whole, as one tag pair. */
  lemma SubscriptRun(d: string, rest: string)
    requires d != [] && AllDigits(d)
    requires rest == [] || !IsDigit(rest[0])
    ensures Subscript(d + rest) == Wrap(d) + Subscript(rest)
  {
    DigitPrefixOfRun(d, rest);
    assert (d + rest)[..|d|] == d;
    assert (d + rest)[|d|..] == rest;
  }

  /** A non-digit character is copied as it is. */
  lemma SubscriptNonDigit(c: char, rest: string)
    requires !IsDigit(c)
    ensures Subscript([c] + rest) == [c] + Subscript(rest)
  {
    assert ([c] + rest)[1..] == rest;
  }

  /** A string made only of digits becomes one subscript. */
  lemma SubscriptAllDigits(d: string)
    requires d != [] && AllDigits(d)
    ensures Subscript(d) == Wrap(d)
  {
    SubscriptRun(d, []);
    assert d + [] == d;
  }

  /** Splitting the input where no digit run is cut splits the output the same way. */
  lemma {:induction false} SubscriptAppend(a: string, b: string)
    requires a == [] || b == [] || !IsDigit(a[|a| - 1]) || !IsDigit(b[0])
    ensures Subscript(a + b) == Subscript(a) + Subscript(b)
    decreases |a|
  {
    if a == [] {
      assert a + b == b;
    } else if !IsDigit(a[0]) {
      SubscriptAppend(a[1..], b);
      AppendAfterChar(a, b);
    } else {
      var n := DigitPrefix(a);
      if n == |a| {
        SubscriptAppendRun(a, b);
      } else {
        SubscriptAppend(a[n..], b);
        AppendAfterRun(a, b, n);
      }
    }
  }

  lemma AppendAfterChar(a: string, b: string)
    requires a != [] && !IsDigit(a[0])
    requires Subscript(a[1..] + b) == Subscript(a[1..]) + Subscript(b)
    ensures Subscript(a + b) == Subscript(a) + Subscript(b)
  {
    var c, r := a[0], a[1..];
    var x, y := Subscript(r), Subscript(b);
    assert Subscript(a + b) == [c] + (x + y) by {
      assert (a + b)[0] == c && (a + b)[1..] == r + b;
    }
    assert Subscript(a) == [c] + x;
    ConcatAssoc([c], x, y);
  }

  lemma AppendAfterRun(a: string, b: string, n: nat)
    requires a != [] && IsDigit(a[0]) && n == DigitPrefix(a) && n < |a|
    requires Subscript(a[n..] + b) == Subscript(a[n..]) + Subscript(b)
    ensures Subscript(a + b) == Subscript(a) + Subscript(b)
  {
    var d, rest := a[..n], a[n..];
    assert a == d + rest;
    assert a + b == d + (rest + b);
    assert (rest + b)[0] == rest[0];
    SubscriptRun(d, rest + b);
    SubscriptRun(d, rest);
    ConcatAssoc(Wrap(d), Subscript(rest), Subscript(b));
  }

  lemma SubscriptAppendRun(d: string, b: string)
    requires d != [] && AllDigits(d)
    requires b == [] || !IsDigit(b[0])
    ensures Subscript(d + b) == Subscript(d) + Subscript(b)
  {
    SubscriptRun(d, b);
    SubscriptAllDigits(d);
  }

  /** Kept as a lemma: stated inline, the regrouping costs the solver far more. */
  lemma ConcatAssoc(w: string, x: string, y: string)
    ensures w + (x + y) == (w + x) + y
  {
  }

  /** A string without digits is left unchanged. */
  lemma {:induction false} SubscriptNoDigits(s: string)
    requires forall i | 0 <= i < |s| :: !IsDigit(s[i])
    ensures Subscript(s) == s
    decreases |s|
  {
    if s != [] {
      SubscriptNoDigits(s[1..]);
    }
  }

  // ---------------------------------------------------------------------
  // Length
  // ---------------------------------------------------------------------

  /** The number of maximal digit runs: digits not followed by another digit. */
  function RunCount(s: string): nat
    decreases |s|
  {
    if s == [] then 0
    else (if IsDigit(s[0]) && (|s| == 1 || !IsDigit(s[1])) then 1 else 0) + RunCount(s[1..])
  }

  lemma {:induction false} RunCountOfRun(d: string, rest: string)
    requires d != [] && AllDigits(d)
    requires rest == [] || !IsDigit(rest[0])
    ensures RunCount(d + rest) == 1 + RunCount(rest)
    decreases |d|
  {
    assert (d + rest)[1..] == d[1..] + rest;
    if |d| == 1 {
      assert d[1..] + rest == rest;
    } else {
      RunCountOfRun(d[1..], rest);
    }
  }

  /** Each run gains the eleven characters of its two tags, nothing else changes length. */
  lemma {:induction false} SubscriptLength(s: string)
    ensures |Subscript(s)| == |s| + 11 * RunCount(s)
    decreases |s|
  {
    if s != [] {
      if IsDigit(s[0]) {
        var n := DigitPrefix(s);
        assert s == s[..n] + s[n..];
        RunCountOfRun(s[..n], s[n..]);
        SubscriptLength(s[n..]);
      } else {
        SubscriptLength(s[1..]);
      }
    }
  }

  // ---------------------------------------------------------------------
  // Deleting the tags gives back the input
  // ---------------------------------------------------------------------

  /** Deletes every `<sub>` and `</sub>` tag. */
  function Strip(s: string): (r: string)
    ensures |r| <= |s|
    decreases |s|
  {
    if s == [] then []
    else if |SubOpen| <= |s| && s[..|SubOpen|] == SubOpen then Strip(s[|SubOpen|..])
    else if |SubClose| <= |s| && s[..|SubClose|] == SubClose then Strip(s[|SubClose|..])
    else [s[0]] + Strip(s[1..])
  }

  predicate NoAngle(s: string)
  {
    forall i | 0 <= i < |s| :: s[i] != '<'
  }

  lemma StripChar(c: char, y: string)
    requires c != '<'
    ensures Strip([c] + y) == [c] + Strip(y)
  {
    var s := [c] + y;
    assert s[0] == c && SubOpen[0] == '<' && SubClose[0] == '<';
    assert s[1..] == y;
  }

  lemma StripOpen(y: string)
    ensures Strip(SubOpen + y) == Strip(y)
  {
    assert (SubOpen + y)[..|SubOpen|] == SubOpen;
    assert (SubOpen + y)[|SubOpen|..] == y;
  }

  lemma StripClose(y: string)
    ensures Strip(SubClose + y) == Strip(y)
  {
    var s := SubClose + y;
    assert s[..|SubClose|] == SubClose;
    assert s[1] == '/' && SubOpen[1] == 's';
    assert s[|SubClose|..] == y;
  }

  lemma {:induction false} StripPlain(x: string, y: string)
    requires NoAngle(x)
    ensures Strip(x + y) == x + Strip(y)
    decreases |x|
  {
    if x == [] {
      assert x + y == y;
    } else {
      assert x + y == [x[0]] + (x[1..] + y);
      StripChar(x[0], x[1..] + y);
      StripPlain(x[1..], y);
      assert x == [x[0]] + x[1..];
    }
  }

  /** Text without `<` holds no tag, so `Strip` leaves it as it is. */
  lemma StripNoAngle(s: string)
    requires NoAngle(s)
    ensures Strip(s) == s
  {
    StripPlain(s, []);
    assert s + [] == s;
  }

  lemma StripWrap(d: string, rest: string)
    requires NoAngle(d)
    ensures Strip(Wrap(d) + rest) == d + Strip(rest)
  {
    assert Wrap(d) + rest == SubOpen + (d + (SubClose + rest));
    StripOpen(d + (SubClose + rest));
    StripPlain(d, SubClose + rest);
    StripClose(rest);
  }

  /** On a formula without `<`, removing the inserted tags restores it exactly. */
  lemma {:induction false} StripSubscript(s: string)
    requires NoAngle(s)
    ensures Strip(Subscript(s)) == s
    decreases |s|
  {
    if s != [] {
      if IsDigit(s[0]) {
        var n := DigitPrefix(s);
        var d, rest := s[..n], s[n..];
        assert s == d + rest;
        assert Subscript(s) == Wrap(d) + Subscript(rest);
        assert Strip(Wrap(d) + Subscript(rest)) == d + Strip(Subscript(rest)) by {
          StripWrap(d, Subscript(rest));
        }
        StripSubscript(rest);
      } else {
        assert Subscript(s) == [s[0]] + Subscript(s[1..]);
        assert Strip([s[0]] + Subscript(s[1..])) == [s[0]] + Strip(Subscript(s[1..])) by {
          StripChar(s[0], Subscript(s[1..]));
        }
        StripSubscript(s[1..]);
        assert s == [s[0]] + s[1..];
      }
    }
  }

  /** A formula the parser accepts contains no `<`, so the tags can always be told apart. */
  lemma AcceptedHasNoAngle(raw: string)
    requires WellFormed(Normalize(raw))
    ensures NoAngle(raw)
  {
    NormalizeMembers(raw);
    assert !IsFormulaChar('<') && !IsIgnored('<');
  }
}
