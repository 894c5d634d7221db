# molarmass in Dafny

A verified model of the core of *molarmass*, a small web tool that takes a
chemical formula such as `Mg3(PO4)2` or `NH4[Cr(SCN)4(NH3)2]` and reports
the elements it contains, how many atoms of each, and the molar mass.

The model covers three parts of the system:

- **`new Compound(formula)`**, whose behaviour is fixed by
  `test/test-compound.js`. It runs as a pipeline:
  - `Formula.Normalize` drops the ignored characters: ASCII white space, `_`,
    `.`, `+`, `-` and `=`.
  - `Formula.WellFormed` is the validator. It checks the character rules and
    the bracket stack.
  - `Formula.Parse` is a recursive-descent parser that builds a tree of
    `Atom(symbol, quantity)` and `Group(body, quantity)` terms.
  - `Compounds.Aggregate` folds the tree into one part per symbol, in order of
    first appearance. Groups multiply and repeated symbols add.
  - `Compounds.Resolve` looks every symbol up in the periodic table. A symbol
    the table does not hold becomes the record `{name: "", symbol, atomicNumber: 0, mass: 0}`.
  - `Compounds.SortByAtomicNumber` is a stable insertion sort on the
    atomic number, so unknown symbols come first.
  - `Compounds.MolarMass` is the sum of quantity × mass.

  `Compounds.NewCompound` puts these steps together and returns `Err` where
  the constructor throws.
- **The periodic table** of `lib/table.js` is the class `PeriodicTable.Table`.
  - Its constructor fills a map in a loop over the element records, so a later
    record with the same symbol replaces an earlier one.
  - `Get` returns the stored record or `None`.
  - `Size` is fixed once construction ends. The class fields are `const`,
    which models the frozen `size` property and the absence of any mutator.
- **The subscript display** of `js/components/ActiveCompoundSection.React.js`
  is `Subscript.Subscript`. It wraps every maximal digit run of the formula
  in `<sub>`…`</sub>`.

Two modules add proof structure:

- `Spelling` gives a canonical printer `Spell` for term trees. It proves that
  parsing the printed text returns the tree. `Vectors` uses this to obtain
  the parse trees of the test formulas.
- `Examples` replays the tests over any table that holds the tests' element
  records.

Module layout: `wrappers.dfy` (Option/Result), `table.dfy`, `formula.dfy`,
`tally.dfy` (the insertion-ordered symbol → quantity bag), `spelling.dfy`,
`compound.dfy`, `subscript.dfy`, `vectors.dfy`, `examples.dfy`.

## Model

| member | source | states |
|---|---|---|
| PeriodicTable.Table.constructor | lib/table.js:5-11 | the loop over the records leaves the table valid: its map is the fold of `set(symbol, record)` over the whole dataset |
| PeriodicTable.Table.Get | lib/table.js:13-15 | a record is returned exactly when the symbol is listed; it carries the looked-up symbol and is the last record listed under it (a later duplicate wins) |
| PeriodicTable.Table.SizeIsDistinctSymbols | lib/table.js:17-22 | `size` is the number of distinct symbols in the dataset, at most the number of records |
| PeriodicTable.BuildMap | lib/table.js:8-11 | every record of the built map sits under its own symbol, and the map has no more keys than the dataset has records |
| PeriodicTable.BuildMapKeys | lib/table.js:6-11 | the map's keys are exactly the symbols of the dataset, so an absent symbol has no entry |
| PeriodicTable.BuildMapLastWins | lib/table.js:8-11 | a listed symbol maps to the record at its last index in the dataset |
| PeriodicTable.BuildMapSymbol | lib/table.js:8-11 | every stored record is stored under its own symbol, and every key is a listed symbol |
| PeriodicTable.SymbolsBound | lib/table.js:17-22 | a dataset has no more distinct symbols than records |
| Formula.Normalize | test/test-compound.js:314-409 | the normalised formula contains no ignored character and is no longer than the input |
| Formula.NormalizeDropsIgnored | test/test-compound.js:314-409 | deleting one ignored character anywhere does not change the normalised formula |
| Formula.NormalizeAppend | test/test-compound.js:314-409 | normalising distributes over concatenation |
| Formula.NormalizeKeepsClean | test/test-compound.js:314-409 | a formula without ignored characters is its own normal form |
| Formula.NormalizeMembers | test/test-compound.js:314-409 | a character occurs in the normal form if and only if it occurs in the input and is not ignored |
| Formula.NormalizeIdempotent | test/test-compound.js:314-409 | normalising twice is normalising once |
| Formula.DecimalString | test/test-compound.js:87-104 | every number is written as a non-empty string of decimal digits |
| Formula.DecimalRoundTrip | test/test-compound.js:87-104 | reading the decimal writing of a number gives the number back, so a digit run is one multi-digit number |
| Formula.DecimalReadsBack | test/test-compound.js:87-104 | every number's decimal writing reads back as that number |
| Formula.WellFormed | test/test-compound.js:434-504 | an accepted formula is non-empty, starts with a capital letter or an opening bracket, and does not end with an opening bracket |
| Formula.SymbolEnd | test/test-compound.js:125-138 | a symbol is one capital letter followed by at most one small letter, and a following small letter is always taken into it |
| Formula.Quantity | test/test-compound.js:23-36 | an absent quantity means 1, and a digit run that writes the number `n` is read as `n` |
| Formula.DigitsEnd | test/test-compound.js:87-104 | the quantity after a symbol or group is the maximal digit run at that point |
| Formula.ParseTerms | test/test-compound.js:106-123 | a successful parse of a term sequence ends inside the formula, never before its start |
| Formula.ParseTerm | test/test-compound.js:106-123 | a successful term parse consumes at least one character |
| Formula.ParseFormula | test/test-compound.js:8-20 | a successful parse holds at least one term |
| Formula.Parse | test/test-compound.js:8-20 | a parse tree is returned if and only if the validator accepts the text, and it holds at least one term |
| Formula.ParseFormulaSound | test/test-compound.js:434-504 | every text the parser alone accepts passes all the validation rules |
| Formula.ParseAcceptsExactly | test/test-compound.js:8-20 | the parser alone succeeds if and only if the validator accepts, so validating first changes no result |
| Formula.ParseTermsTotal | test/test-compound.js:8-20 | on a validated formula, parsing terms from any term start succeeds and stops at the end or at a closing bracket |
| Formula.ParseFormulaTotal | test/test-compound.js:17-19 | every validated formula parses |
| Formula.GroupQuantified | test/test-compound.js:212-221 | a bracketed group with a matched closing bracket parses to a group carrying the digit run after it as its quantity |
| Formula.SwapKind | test/test-compound.js:287-312 | exchanging `(`↔`[` and `)`↔`]` keeps a character's open/close class and leaves other characters alone |
| Formula.NormalizeSwap | test/test-compound.js:287-312 | exchanging bracket kinds commutes with normalising |
| Formula.WellFormedSwap | test/test-compound.js:287-312 | the validator accepts a formula if and only if it accepts it with bracket kinds exchanged |
| Formula.ParseSwap | test/test-compound.js:287-312 | exchanging bracket kinds gives the same parse result |
| Formula.RoundKind | test/test-compound.js:287-312 | an opening bracket becomes `(`, a closing one `)`, any other character is kept |
| Formula.RoundBrackets | test/test-compound.js:287-312 | every opening bracket becomes `(`, every closing one `)`, every other character is kept, and the length is kept |
| Formula.NormalizeRound | test/test-compound.js:287-312 | making all brackets round commutes with normalising |
| Formula.StackAtRound | test/test-compound.js:287-312 | wherever the bracket stack of a text is defined, the rounded text has the rounded stack |
| Formula.WellFormedRound | test/test-compound.js:287-312 | a valid formula stays valid with all its brackets round |
| Formula.ParseAlike | test/test-compound.js:287-312 | two valid formulas that differ only in which kind of bracket stands where, pair by pair, parse to the same tree |
| Formula.ParseRound | test/test-compound.js:287-312 | a valid formula parses to the same tree with all its brackets round |
| Tally.Add | test/test-compound.js:106-123 | adding `q` of `x` raises the count of `x` by `q` and no other, adds `x` to the symbols, and never duplicates a symbol |
| Tally.AddAbsent | test/test-compound.js:412-431 | a new symbol is appended at the end, so first-appearance order is kept |
| Tally.AddPresent | test/test-compound.js:106-123 | a repeated symbol grows its existing part in place |
| Tally.Merge | test/test-compound.js:106-123 | merging adds the counts of both bags for every symbol and keeps one part per symbol |
| Tally.MergeDisjoint | test/test-compound.js:106-123 | merging symbols that are all new appends them in their own order |
| Tally.Scale | test/test-compound.js:272-285 | scaling keeps every symbol, even with multiplier zero |
| Tally.ScaleQuantity | test/test-compound.js:212-221 | scaling by `q` multiplies every symbol's count by `q` |
| Tally.QuantityOfDistinct | test/test-compound.js:106-123 | in a bag without duplicates a part holds the whole count of its symbol |
| Tally.QuantityOfAbsent | test/test-compound.js:106-123 | a symbol with no part has count zero |
| Spelling.SpellQuantity | test/test-compound.js:23-36 | a written quantity is a string of decimal digits only |
| Spelling.SpellWellFormed | test/test-compound.js:17-19 | every tree the grammar can write prints to a formula the validator accepts |
| Spelling.ParseSpell | test/test-compound.js:22-36 | parsing the printed form of a tree gives the tree back, so a missing quantity means 1 |
| Compounds.Aggregate | test/test-compound.js:106-123 | the folded bag has one part per symbol |
| Compounds.AggregateCounts | test/test-compound.js:106-123 | every symbol's count is its written count: quantities summed, and multiplied by the quantity of every enclosing group |
| Compounds.AggregateSymbols | test/test-compound.js:261-285 | the bag holds exactly the written symbols, including those with quantity zero |
| Compounds.Unknown | test/test-compound.js:412-431 | the record for an unknown symbol carries that symbol, sorts no later than any record, and adds no mass at any quantity |
| Compounds.Resolve | test/test-compound.js:412-431 | a listed symbol gets its table record; any other symbol gets a record with its symbol, empty name, atomic number 0 and mass 0 |
| Compounds.ResolveAll | test/test-compound.js:412-431 | every part becomes an entry with its resolved record and its quantity, in the same order |
| Compounds.Insert | test/test-compound.js:38-49 | inserting into an ascending list keeps it ascending and adds exactly the one entry |
| Compounds.SortByAtomicNumber | test/test-compound.js:38-49 | the result ascends by atomic number and is a permutation of the input |
| Compounds.NewCompound | test/test-compound.js:8-20 | a compound is built if and only if the normalised formula is valid, and its entries ascend by atomic number |
| Compounds.EntryCountSort | test/test-compound.js:38-49 | sorting neither adds nor drops an entry for any symbol |
| Compounds.EntryCountResolveAll | test/test-compound.js:106-123 | resolving a bag without duplicates gives one entry per symbol |
| Compounds.CompoundEntryPerSymbol | test/test-compound.js:106-123 | each written symbol has exactly one entry, and no other symbol has one |
| Compounds.CompoundEntryContents | test/test-compound.js:174-210 | each entry holds its symbol's resolved record and exactly the symbol's written count |
| Compounds.TimesIsProduct | test/test-compound.js:23-36 | the repeated sum used in the mass proofs is the product `n × x` |
| Compounds.AggregateMass | test/test-compound.js:193-210 | the mass of the folded bag equals the mass computed directly on the parse tree |
| Compounds.MolarMassSort | test/test-compound.js:38-49 | the order of the entries does not change the mass |
| Compounds.CompoundMass | test/test-compound.js:23-36 | `molarMass` is Σ quantity × mass over the entries and equals the structural mass of the formula |
| Compounds.MolarMass | test/test-compound.js:261-285 | with non-negative record masses the molar mass is non-negative |
| Compounds.CompoundMassNonNegative | test/test-compound.js:23-36 | with non-negative masses in the dataset, every compound built has a non-negative molar mass |
| Compounds.IgnoredCharacterIrrelevant | test/test-compound.js:314-409 | inserting an ignored character anywhere gives the same compound, or the same refusal |
| Compounds.BracketKindIrrelevant | test/test-compound.js:287-312 | exchanging the kind of every bracket at once gives the same compound, or the same refusal |
| Compounds.MixedBracketsIrrelevant | test/test-compound.js:287-312 | two valid formulas that differ only in which kind of bracket stands where, pair by pair, give the same compound |
| Compounds.RoundBracketsIrrelevant | test/test-compound.js:287-312 | a valid formula such as `NH4[Cr(SCN)4(NH3)2]` gives the same compound with all its brackets round |
| Subscript.Subscript | js/components/ActiveCompoundSection.React.js:6 | the display text is never shorter than the formula |
| Subscript.DigitPrefix | js/components/ActiveCompoundSection.React.js:6 | the leading digit run is maximal |
| Subscript.SubscriptRun | js/components/ActiveCompoundSection.React.js:6 | a maximal leading digit run is wrapped whole in one tag pair |
| Subscript.SubscriptNonDigit | js/components/ActiveCompoundSection.React.js:6 | a non-digit character is copied unchanged |
| Subscript.SubscriptAllDigits | js/components/ActiveCompoundSection.React.js:6 | a string of digits becomes exactly one subscript |
| Subscript.SubscriptAppend | js/components/ActiveCompoundSection.React.js:6 | cutting the input outside a digit run cuts the output the same way |
| Subscript.SubscriptNoDigits | js/components/ActiveCompoundSection.React.js:6 | a formula without digits is left unchanged |
| Subscript.SubscriptLength | js/components/ActiveCompoundSection.React.js:6 | the output is longer by 11 characters per maximal digit run |
| Subscript.Strip | js/components/ActiveCompoundSection.React.js:6 | deleting the tags never makes a text longer |
| Subscript.StripNoAngle | js/components/ActiveCompoundSection.React.js:6 | a text without `<` holds no tag and is left as it is |
| Subscript.StripSubscript | js/components/ActiveCompoundSection.React.js:6 | deleting the tags from the output gives back any input without `<` |
| Subscript.AcceptedHasNoAngle | js/components/ActiveCompoundSection.React.js:6 | every formula the compound accepts is free of `<`, so the round trip applies to it |
| Vectors.UnclosedRejected | test/test-compound.js:10 | `((A` is refused |
| Vectors.UnopenedRejected | test/test-compound.js:11 | `A))` is refused |
| Vectors.ExtraCloseRejected | test/test-compound.js:12 | `((A)B)C)` is refused |
| Vectors.CloseAfterGroupRejected | test/test-compound.js:13 | `(A)B)` is refused |
| Vectors.SecondGroupUnclosedRejected | test/test-compound.js:14 | `(A)(B` is refused |
| Vectors.BalancedAccepted | test/test-compound.js:17-19 | `(A)` is accepted |
| Vectors.LowercaseStartRejected | test/test-compound.js:436-440 | `pCH4` is refused |
| Vectors.NumberStartRejected | test/test-compound.js:442-446 | `4(Zn)` is refused |
| Vectors.CloseStartRejected | test/test-compound.js:448-452 | `)He` is refused |
| Vectors.LowercaseAfterNumberRejected | test/test-compound.js:456-460 | `C2h4o2` is refused |
| Vectors.LowercaseAfterOpenRejected | test/test-compound.js:464-468 | `(k)` is refused |
| Vectors.NumberAfterOpenRejected | test/test-compound.js:470-474 | `H2O(2)` is refused |
| Vectors.EmptyGroupRejected | test/test-compound.js:476-480 | `Tc()` is refused |
| Vectors.OpenAtEndRejected | test/test-compound.js:482-486 | `K2SO4(` is refused |
| Vectors.LowercaseAfterCloseRejected | test/test-compound.js:490-494 | `(CH3)cH3` is refused |
| Vectors.InvalidCharacterRejected | test/test-compound.js:498-502 | `Cl^2` is refused |
| Vectors.HydrogenParses | test/test-compound.js:31 | `H` parses to one hydrogen atom with quantity 1 |
| Vectors.HydroxideParses | test/test-compound.js:39 | `OH` parses to O then H, each with quantity 1 |
| Vectors.WaterParses | test/test-compound.js:73 | `H2O` parses to H with quantity 2, then O with quantity 1 |
| Vectors.SodiumParses | test/test-compound.js:133 | `Na` parses to the one symbol `Na` |
| Vectors.RunParses | test/test-compound.js:87-104 | `H22` parses to H with quantity 22 |
| Vectors.ZeroAtomParses | test/test-compound.js:262 | `H0` parses to H with quantity 0 |
| Vectors.ZeroGroupParses | test/test-compound.js:273 | `(OH)0` parses to a group of O and H with quantity 0 |
| Vectors.NestedParses | test/test-compound.js:213 | `((((Pt)7)5))` parses to four nested groups around one Pt |
| Vectors.CalciumHydroxideParses | test/test-compound.js:173 | `Ca(OH)2` parses to Ca, then a group of O and H with quantity 2 |
| Vectors.UnknownParses | test/test-compound.js:414 | `HX2` parses to H with quantity 1, then X with quantity 2 |
| Examples.HydrogenCompound | test/test-compound.js:23-36 | `H` gives one hydrogen entry with quantity 1 and mass 1.00794 |
| Examples.HydroxideCompound | test/test-compound.js:38-49 | `OH` gives H before O, each with quantity 1, and mass 17.00734 |
| Examples.WaterCompound | test/test-compound.js:72-85 | `H2O` gives H × 2 then O × 1, and mass 18.01528 |
| Examples.SodiumCompound | test/test-compound.js:125-138 | `Na` gives one sodium entry with quantity 1 and mass 22.98977 |
| Examples.IonSign | test/test-compound.js:393-409 | a trailing `+` or `-` does not change the compound |
| Examples.ChargeIgnored | test/test-compound.js:393-409 | `Cl-` gives the compound of `Cl`, and `Na+` that of `Na` |
| Examples.ZeroAtomCompound | test/test-compound.js:261-270 | `H0` keeps a hydrogen entry with quantity 0, and the mass is 0 |
| Examples.ZeroGroupCompound | test/test-compound.js:272-285 | `(OH)0` keeps H and O entries with quantity 0, and the mass is 0 |
| Examples.NestedCompound | test/test-compound.js:212-221 | `((((Pt)7)5))` gives Pt × 35 with mass 6827.73 |
| Examples.CalciumHydroxideCompound | test/test-compound.js:173-190 | `Ca(OH)2` gives H × 2, O × 2, then Ca × 1, with mass 74.09268 |
| Examples.CalciumHydroxideSort | test/test-compound.js:173-190 | calcium, written first, is listed after hydrogen and oxygen |
| Examples.InsertLast | test/test-compound.js:173-190 | an entry with a larger atomic number than every entry of an ascending list is inserted at its end |
| Examples.UnknownCompound | test/test-compound.js:412-431 | `HX2` gives the unknown X × 2 first, then H × 1, with mass 1.00794 |
| Examples.ParenthesesValidated | test/test-compound.js:8-20 | the five unbalanced formulas are refused and `(A)` is accepted |
| Examples.InvalidCompoundsRefused | test/test-compound.js:434-504 | every formula of the invalid-compound tests is refused |

## Left out

- `lib/compound.js` is not part of this model. The pipeline is rebuilt from the behaviour its tests fix.
  - Where another order of steps would give the same results, the model follows the usual one: normalise, validate, parse, aggregate, resolve, sort, sum.
  - A symbol is one capital letter optionally followed by one small letter, whatever the table holds. Another reading takes the small letter only when the two-letter symbol is in the table. The two rules differ only for an unknown two-letter symbol, and no test settles that case, so the model keeps the table-independent rule.
- Floating point: masses are Dafny `real`s, multiplied and summed exactly. The tests' expected masses are JavaScript `number` results, so the concrete examples hold with exact decimals and do not model rounding.
- JavaScript number limits: quantities are unbounded `nat`s. The model does not capture overflow into floating point or loss of precision beyond 2^53.
- Error messages: a refused formula gives `Err` with no text. The model does not distinguish which rule was broken.
- White space is ASCII space, tab, newline, vertical tab, form feed and carriage return. Unicode white space that a JavaScript regular expression `\s` also matches is not modelled.
- The order among entries with equal atomic numbers, in practice several unknown symbols, is pinned only as stable first-appearance order. No test fixes it.
- `elements.json`, the element dataset, is a constructor parameter of `Table`. Its contents are not part of this model, and the examples take as a precondition that the table holds the records they use.
- The React components (rendering, history, input handling) are not modelled beyond the subscript string transform. How the browser renders the returned string, which is inserted unescaped through `dangerouslySetInnerHTML`, is left out, and the model says nothing about markup a formula might carry.
- Subscript.StripSubscript: the round trip is stated for inputs without `<`, because a formula already containing the tag text cannot be told apart from an inserted tag. Subscript.AcceptedHasNoAngle shows that every accepted formula meets this condition.
- Compounds.Times is an n-fold sum used only to keep the mass proofs linear. Compounds.TimesIsProduct equates it with `quantity × mass`.
- The table's immutability is modelled by `const` fields. Attempts to write to `size`, which JavaScript silently ignores, have no counterpart.
- The remaining valid-compound tests (H2, (S8), C12H22O11, H(CO)(CHOH)5H, NaOH, Cr2O7, Mg3(PO4)2, (Fe2)O3, the complex compound, the square-bracket, underscore, `=`, period and white-space formulas) are covered by the general lemmas rather than by concrete instances:
  - Compounds.CompoundEntryContents and Compounds.CompoundEntryPerSymbol for the counts;
  - Compounds.SortByAtomicNumber for the order;
  - Compounds.CompoundMass for the mass;
  - Compounds.RoundBracketsIrrelevant, Compounds.MixedBracketsIrrelevant and Compounds.IgnoredCharacterIrrelevant for the bracket and ignored characters.
