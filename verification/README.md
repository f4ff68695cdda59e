# Pseudocode grammar recogniser (`AutomataReconocedor`) in Dafny

`AutomataReconocedor` decides whether a line of Spanish pseudocode belongs to a
small fixed grammar. Examples are `comienza leer <x>; termina` and
`comienza si <c> entonces <i> finsi termina`. The pipeline has four stages:

1. **Lexicon** (`lexicon.dfy`). A table of 28 keys, 27 case-sensitive keyword spellings plus `;`, mapped to grammar symbols. `Hasta` is an alias of `HASTAQUE`. The table keeps the dictionary's insertion order. `Candidates` lists the spellings in the order the segmenter tries them: a stable sort by length, longest first.
2. **Word tests** (`words.dfy`). `es_variable`, `es_expresion`, `es_asignacion`, `es_condicion` and `es_instrucciones` are string predicates.
3. **Dense segmenter** (`pascal_split.dfy`, `segmenter.dfy`). It cuts text written without spaces into words:
   - `<a>=<b>` spans;
   - `<...>` spans;
   - `;`;
   - runs of concatenated keywords. A run is split by the backtracking search `dividir_pascal_case`, which keeps the split with the most words. If no split exists, the segmenter takes the longest keyword prefix, and failing that one character.
4. **Classifier and automaton** (`classifier.dfy`, `automaton.dfy`).
   - `analizar_palabras` gives each word a symbol and splits off a trailing `;`.
   - `procesar_cadena` runs a nondeterministic automaton over the symbols, keeping a frontier of states. A placeholder word (`ELEMENTO`) becomes `VARIABLE`, `EXPRESION`, `CONDICION` or `INSTRUCCIONES`. The choice comes from the first frontier state found in a fixed priority order.

How the code is modelled:
- Loops in the source are methods with loops, proved equal to specification functions:
  - `TokenizarCadenaSinEspacios` equals `Dense`;
  - `BuscarDivision` equals `BestSplit`;
  - `AnalizarPalabras` equals `Analyze`;
  - `Successors` equals `Post`;
  - `ProcesarCadena` equals `Accepts ∘ Analyze`.
- The properties of those functions are proved as lemmas.
- The recogniser's fields are set once in its constructor and never change. They are module constants and functions, not a class.

The dense path and the whitespace path do not read assignments alike. The model follows the code here:
- With spaces, `comienza x=<e>; termina` is accepted for every bare name `x` and alphanumeric `e` (`SpacedAssignmentAccepted`).
- Without a space, no text yields `Asignacion`, and every text that holds `=` is rejected (`DenseNoAssignment`, `DenseEqualsRejected`). So the dense path never accepts a program that contains an assignment.
- `AssignmentReadsTwoWays` puts the two side by side: `comienza x=<e>; termina` is accepted, and `comienzax=<e>;termina` is rejected.
- The cause: the segmenter cuts out `<var>=<exp>` spans, and it also emits a lone `=` as a word of one character. `es_asignacion` needs a bare name before the `=`, so both are `Invalido`.

## Model

| member | source | states |
|---|---|---|
| Lexicon.Entries | reconocedor_gramatica_pseudocodigo_FTI_2025.py:59-88 | the dictionary `palabras_validas`: its 28 key/symbol pairs in insertion order |
| Lexicon.Candidates | reconocedor_gramatica_pseudocodigo_FTI_2025.py:226-237 | the keys other than `;`, in the order `sorted(..., key=len, reverse=True)` yields them |
| Lexicon.EntryKeysDistinct | reconocedor_gramatica_pseudocodigo_FTI_2025.py:59-88 | no key occurs twice in the dictionary literal |
| Lexicon.PositionIn | reconocedor_gramatica_pseudocodigo_FTI_2025.py:59-88 | dictionary lookup finds the first entry with the spelling, or reports that none has it |
| Lexicon.Lookup | reconocedor_gramatica_pseudocodigo_FTI_2025.py:59-88 | `palabras_validas[w]`: a word has a symbol iff some entry spells it, and then it is exactly that entry's symbol, a keyword symbol or `PuntoComa` |
| Lexicon.CandidateAt | reconocedor_gramatica_pseudocodigo_FTI_2025.py:59-88 | each candidate spelling stands at the recorded position of the lexicon |
| Lexicon.EntryAt | reconocedor_gramatica_pseudocodigo_FTI_2025.py:59-88 | every lexicon entry except the `;` entry is spelled by a candidate at a recorded position |
| Lexicon.KeyLength | reconocedor_gramatica_pseudocodigo_FTI_2025.py:59-88 | every key other than `;` has at least two characters |
| Lexicon.CandidatesAreKeys | reconocedor_gramatica_pseudocodigo_FTI_2025.py:226-228 | the spellings tried by the search are exactly the lexicon keys other than `;` |
| Lexicon.CandidatesSorted | reconocedor_gramatica_pseudocodigo_FTI_2025.py:237 | the try order is longest first; equal lengths keep the dictionary's insertion order (stable sort) |
| Lexicon.CandidateLength | reconocedor_gramatica_pseudocodigo_FTI_2025.py:59-88 | every spelling is at least two characters long, so each keyword step advances |
| Lexicon.CandidateLetters | reconocedor_gramatica_pseudocodigo_FTI_2025.py:59-88 | every spelling has letters only |
| Words.EsVariable | reconocedor_gramatica_pseudocodigo_FTI_2025.py:152-160 | `es_variable`: alphanumeric and not a lexicon key |
| Words.EsExpresion | reconocedor_gramatica_pseudocodigo_FTI_2025.py:162-174 | `es_expresion`: `<alnum+>` when bracketed, else a bare non-key name |
| Words.EsAsignacion | reconocedor_gramatica_pseudocodigo_FTI_2025.py:176-195 | `es_asignacion`: holds an `=`; before the first `=` a bare non-key name; after it `<alnum+>` or a bare non-key name |
| Words.EsCondicion | reconocedor_gramatica_pseudocodigo_FTI_2025.py:197-205 | `es_condicion`: `<alnum+>` |
| Words.EsInstrucciones | reconocedor_gramatica_pseudocodigo_FTI_2025.py:207-215 | `es_instrucciones`: `<alnum+>` |
| Words.Interior | reconocedor_gramatica_pseudocodigo_FTI_2025.py:168-170 | the content of a bracketed word is the word without its first and last character |
| Words.IndexOf | reconocedor_gramatica_pseudocodigo_FTI_2025.py:182-183 | `split('=', 1)` cuts at the first `=` |
| Words.FirstEqualsAt | reconocedor_gramatica_pseudocodigo_FTI_2025.py:182-187 | an `=` preceded only by alphanumerics is the first `=`, so it is where `split('=', 1)` cuts |
| Words.AssignedValueShape | reconocedor_gramatica_pseudocodigo_FTI_2025.py:188-194 | the right side of an assignment is `<alnum+>` or a bare non-key name, which is the union of `es_condicion` and `es_variable`; it holds no `=` |
| Words.EqualsUnique | reconocedor_gramatica_pseudocodigo_FTI_2025.py:176-195 | a word that passes `es_asignacion` holds no `=` besides the one it was cut at |
| Words.KeyShape | reconocedor_gramatica_pseudocodigo_FTI_2025.py:59-88 | no lexicon key holds `<`, `=` or `>`; every key but `;` is alphanumeric |
| Words.AssignmentShape | reconocedor_gramatica_pseudocodigo_FTI_2025.py:176-195 | `es_asignacion` holds iff the text before the `=` is a bare non-key name and the text after it is `<alnum+>` or a bare non-key name; an assignment holds exactly one `=` |
| Words.ElementTest | reconocedor_gramatica_pseudocodigo_FTI_2025.py:152-215 | `es_condicion` equals `es_instrucciones`; `es_variable` implies `es_expresion`; so the four-way test is `es_expresion` alone |
| Words.ShapesDisjoint | reconocedor_gramatica_pseudocodigo_FTI_2025.py:152-195 | a lexicon key is neither an assignment nor an expression, and an assignment is never an expression |
| Words.BracketedLeftSideRejected | reconocedor_gramatica_pseudocodigo_FTI_2025.py:185-187 | a word opening with `<` is never an assignment, because the left side must be a bare name |
| PascalSplit.AllSplits | reconocedor_gramatica_pseudocodigo_FTI_2025.py:231-243 | the complete decompositions `buscar_division` appends to `palabras_posibles`, in its depth-first order |
| PascalSplit.BestSplit | reconocedor_gramatica_pseudocodigo_FTI_2025.py:231-247 | the first longest decomposition the search meets, or none |
| PascalSplit.Division | reconocedor_gramatica_pseudocodigo_FTI_2025.py:217-248 | `dividir_pascal_case`: `[]` for empty text or when no decomposition exists, else the best one |
| PascalSplit.BuscarDivision | reconocedor_gramatica_pseudocodigo_FTI_2025.py:231-243 | the backtracking search returns the best split it finds, equal to `BestSplit` |
| PascalSplit.DividirPascalCase | reconocedor_gramatica_pseudocodigo_FTI_2025.py:217-248 | `dividir_pascal_case` returns `Division(texto)`: `[]` for empty text or when no split exists |
| PascalSplit.FirstLongest | reconocedor_gramatica_pseudocodigo_FTI_2025.py:246-247 | `max(..., key=len)` gives the first element of greatest length; `None` only for an empty list |
| PascalSplit.ConcatCons | reconocedor_gramatica_pseudocodigo_FTI_2025.py:238-240 | a split that starts with spelling `w` spells `t` iff `w` is a prefix of `t` and the rest spells the remainder |
| PascalSplit.AllSplitsExact | reconocedor_gramatica_pseudocodigo_FTI_2025.py:231-243 | the depth-first listing contains exactly the decompositions of the text into spellings |
| PascalSplit.AllSplitsUpToExact | reconocedor_gramatica_pseudocodigo_FTI_2025.py:236-241 | the listing made by the first `n` spellings of the try order holds exactly the decompositions whose first word is among those `n` spellings |
| PascalSplit.FirstLongestAppend | reconocedor_gramatica_pseudocodigo_FTI_2025.py:246-247 | the first longest of a concatenation is the better of the two parts' first longest |
| PascalSplit.BestIsFirstLongest | reconocedor_gramatica_pseudocodigo_FTI_2025.py:237-247 | keeping the best split as the search goes gives the first longest of the full depth-first listing |
| PascalSplit.DivisionIsFirstLongest | reconocedor_gramatica_pseudocodigo_FTI_2025.py:217-248 | the result is the first split of greatest length in depth-first order |
| PascalSplit.DivisionSound | reconocedor_gramatica_pseudocodigo_FTI_2025.py:217-248 | a non-empty result consists of lexicon keys other than `;` whose concatenation is exactly the input |
| PascalSplit.DivisionMaximal | reconocedor_gramatica_pseudocodigo_FTI_2025.py:244-248 | no decomposition has more words than the result; if any decomposition exists, the result is not `[]` |
| Segmenter.Find | reconocedor_gramatica_pseudocodigo_FTI_2025.py:264 | `str.find`: the first index at or after the start that holds the character, or -1 |
| Segmenter.RunEnd | reconocedor_gramatica_pseudocodigo_FTI_2025.py:309-311 | the scan stops at the first `<` or `;` at or after `i`, or at the end |
| Segmenter.FinDeSegmento | reconocedor_gramatica_pseudocodigo_FTI_2025.py:309-311 | the scan loop stops where `RunEnd` says |
| Segmenter.FirstPrefixFrom | reconocedor_gramatica_pseudocodigo_FTI_2025.py:325-331 | the first spelling in try order that the text at `i` starts with |
| Segmenter.LongestKeywordAt | reconocedor_gramatica_pseudocodigo_FTI_2025.py:324-334 | the fallback picks a spelling the text starts with; no matching spelling is longer; `None` iff none matches |
| Segmenter.ScanAt | reconocedor_gramatica_pseudocodigo_FTI_2025.py:258-339 | each pass of the loop strictly advances `i` and stays within the text, so the loop ends |
| Segmenter.KeywordStep | reconocedor_gramatica_pseudocodigo_FTI_2025.py:302-339 | the keyword block strictly advances `i` |
| Segmenter.Peel | reconocedor_gramatica_pseudocodigo_FTI_2025.py:262-294 | emitting a `<...>` span, and a `;` right after it, advances past both |
| Segmenter.PeelCovers | reconocedor_gramatica_pseudocodigo_FTI_2025.py:262-294 | the emitted span and `;` are exactly the characters stepped over |
| Segmenter.KeywordStepCovers | reconocedor_gramatica_pseudocodigo_FTI_2025.py:302-339 | the keyword block emits exactly the characters it steps over, as non-empty words of the segmenter's shapes |
| Segmenter.ScanAtCovers | reconocedor_gramatica_pseudocodigo_FTI_2025.py:258-339 | each pass emits exactly the characters it steps over, as non-empty words |
| Segmenter.DenseFromCovers | reconocedor_gramatica_pseudocodigo_FTI_2025.py:250-341 | the emitted words, concatenated, are the input: nothing is lost or invented |
| Segmenter.DenseFromWellFormed | reconocedor_gramatica_pseudocodigo_FTI_2025.py:250-341 | every emitted word is non-empty and is `;`, a spelling, one character, or a `<...>` span |
| Segmenter.Dense | reconocedor_gramatica_pseudocodigo_FTI_2025.py:250-341 | `tokenizar_cadena_sin_espacios`: the words emitted by repeating the loop body from index 0 to the end |
| Segmenter.EscanearEn | reconocedor_gramatica_pseudocodigo_FTI_2025.py:258-339 | one pass of the loop emits the words of `ScanAt` and resumes where it says |
| Segmenter.EscanearPalabras | reconocedor_gramatica_pseudocodigo_FTI_2025.py:302-339 | the keyword block emits the words of `KeywordStep` |
| Segmenter.TokenizarCadenaSinEspacios | reconocedor_gramatica_pseudocodigo_FTI_2025.py:250-341 | the method returns `Dense(cadena)` |
| Classifier.Split | reconocedor_gramatica_pseudocodigo_FTI_2025.py:350 | `str.split()`: the maximal runs of non-whitespace, in order |
| Classifier.WordEnd | reconocedor_gramatica_pseudocodigo_FTI_2025.py:350 | a word of `split()` ends at the first whitespace or at the end |
| Classifier.SplitWords | reconocedor_gramatica_pseudocodigo_FTI_2025.py:350 | every word of `split()` is non-empty and holds no whitespace |
| Classifier.SplitKeepsText | reconocedor_gramatica_pseudocodigo_FTI_2025.py:350 | the words of `split()`, concatenated, are the input without its whitespace |
| Classifier.SplitJoin | reconocedor_gramatica_pseudocodigo_FTI_2025.py:350 | `split()` undoes joining words with single spaces |
| Classifier.ClassifyBase | reconocedor_gramatica_pseudocodigo_FTI_2025.py:376-388 | the chain lexicon lookup, then `es_asignacion`, then the four placeholder tests, else `INVALIDO` |
| Classifier.ClassifyWord | reconocedor_gramatica_pseudocodigo_FTI_2025.py:357-388 | a word longer than one character ending in `;` gives the chain on the word without it, then `PUNTO_COMA`; any other word gives the chain on itself |
| Classifier.Analyze | reconocedor_gramatica_pseudocodigo_FTI_2025.py:343-390 | `analizar_palabras`: `split()` when the text holds a space, the dense segmenter otherwise, then the symbols of each word in order |
| Classifier.ClassifyBaseExact | reconocedor_gramatica_pseudocodigo_FTI_2025.py:362-390 | lexicon words keep their symbol; `Asignacion` iff `es_asignacion`; `Elemento` iff `es_expresion`; otherwise `Invalido` |
| Classifier.BracketedEqualsInvalid | reconocedor_gramatica_pseudocodigo_FTI_2025.py:377-390 | a word that opens with `<` and holds an `=` is classified `Invalido` |
| Classifier.BracketedAssignmentInvalid | reconocedor_gramatica_pseudocodigo_FTI_2025.py:357-390 | a `<a>=<b>` word, with or without a trailing `;`, yields `Invalido` first |
| Classifier.KeywordWord | reconocedor_gramatica_pseudocodigo_FTI_2025.py:376-377 | a lexicon key, as a word of its own, yields exactly its entry's symbol |
| Classifier.TerminaWord | reconocedor_gramatica_pseudocodigo_FTI_2025.py:376-377 | `termina` and `Termina` each yield `Termina` |
| Classifier.ClassifyWordCount | reconocedor_gramatica_pseudocodigo_FTI_2025.py:359-376 | a word longer than one character that ends in `;` yields two symbols, the second `PuntoComa`; every other word yields one |
| Classifier.ClassifyAllAppend | reconocedor_gramatica_pseudocodigo_FTI_2025.py:357-390 | classifying a list word by word distributes over concatenation |
| Classifier.ClassifyAllLength | reconocedor_gramatica_pseudocodigo_FTI_2025.py:357-390 | between one and two symbols per word |
| Classifier.DenseWordSingle | reconocedor_gramatica_pseudocodigo_FTI_2025.py:359-376 | a word from the dense segmenter never carries its own trailing `;` |
| Classifier.DenseSymbolPerWord | reconocedor_gramatica_pseudocodigo_FTI_2025.py:349-390 | on the segmenter's words the classifier emits exactly one symbol per word |
| Classifier.AnalyzeDense | reconocedor_gramatica_pseudocodigo_FTI_2025.py:349-353 | for text without a space, there are as many symbols as dense words |
| Classifier.EqualsTokenShape | reconocedor_gramatica_pseudocodigo_FTI_2025.py:261-339 | a word of the dense segmenter that holds `=` is the one character `=` or a span opening with `<` |
| Classifier.DenseWordSymbol | reconocedor_gramatica_pseudocodigo_FTI_2025.py:176-195 | a word of the dense segmenter yields one symbol, never `Asignacion`, and `Invalido` when it holds `=` |
| Classifier.DenseSymbols | reconocedor_gramatica_pseudocodigo_FTI_2025.py:357-390 | on the segmenter's words the symbols hold no `Asignacion`, and hold `Invalido` as soon as some word holds `=` |
| Classifier.DenseNoAssignment | reconocedor_gramatica_pseudocodigo_FTI_2025.py:349-390 | text without a space never yields `Asignacion`, and yields `Invalido` when it holds `=` |
| Classifier.AssignmentWord | reconocedor_gramatica_pseudocodigo_FTI_2025.py:359-366 | a word `x=<e>;`, with `x` a bare non-key name and `e` alphanumeric, yields `Asignacion` then `PuntoComa` |
| Classifier.AssignmentBase | reconocedor_gramatica_pseudocodigo_FTI_2025.py:176-195 | `x=<e>`, with `x` a bare non-key name and `e` alphanumeric, passes `es_asignacion` and is classified `Asignacion` |
| Classifier.SpacedAssignmentWords | reconocedor_gramatica_pseudocodigo_FTI_2025.py:349-350 | `split()` cuts `comienza x=<e>; termina` into its three words |
| Classifier.AssignmentProgramWords | reconocedor_gramatica_pseudocodigo_FTI_2025.py:357-390 | those three words yield `Comienza, Asignacion, PuntoComa, Termina` |
| Classifier.SpacedAssignmentSymbols | reconocedor_gramatica_pseudocodigo_FTI_2025.py:343-390 | `analizar_palabras('comienza x=<e>; termina')` is `Comienza, Asignacion, PuntoComa, Termina` |
| Classifier.SepararPalabras | reconocedor_gramatica_pseudocodigo_FTI_2025.py:349-353 | the words read are `split()` when the text holds a space, the dense segmenter's words otherwise |
| Classifier.AnalizarPalabras | reconocedor_gramatica_pseudocodigo_FTI_2025.py:343-390 | the method returns `Analyze(entrada)` |
| Automaton.Delta | reconocedor_gramatica_pseudocodigo_FTI_2025.py:93-150 | the transition table `transiciones`, with `{}` where it has no entry |
| Automaton.ResolveElemento | reconocedor_gramatica_pseudocodigo_FTI_2025.py:408-449 | the priority chain that turns `ELEMENTO` into a category from the first listed state in the frontier, or leaves it `ELEMENTO` |
| Automaton.Post | reconocedor_gramatica_pseudocodigo_FTI_2025.py:451-457 | the union of the table entries of the frontier's states |
| Automaton.Run | reconocedor_gramatica_pseudocodigo_FTI_2025.py:400-465 | the frontier after the loop over the symbols, or a rejection on `INVALIDO` or on an empty successor set |
| Automaton.Accepts | reconocedor_gramatica_pseudocodigo_FTI_2025.py:466-468 | the final frontier meets the final states |
| Automaton.Successors | reconocedor_gramatica_pseudocodigo_FTI_2025.py:451-457 | the inner loop computes the union of the successor sets over the frontier |
| Automaton.ProcesarCadena | reconocedor_gramatica_pseudocodigo_FTI_2025.py:392-468 | the verdict is `Accepts(Analyze(cadena))` |
| Automaton.PostAdd | reconocedor_gramatica_pseudocodigo_FTI_2025.py:451-457 | adding a state to the frontier adds its successors to the union |
| Automaton.PostSingleton | reconocedor_gramatica_pseudocodigo_FTI_2025.py:451-457 | the successors of a one-state frontier are that state's table entry |
| Automaton.InvalidRejects | reconocedor_gramatica_pseudocodigo_FTI_2025.py:403-405 | an `Invalido` symbol anywhere rejects, from any frontier |
| Automaton.NoElementoMove | reconocedor_gramatica_pseudocodigo_FTI_2025.py:93-150 | no table entry reads `ELEMENTO` itself |
| Automaton.CategoryMove | reconocedor_gramatica_pseudocodigo_FTI_2025.py:93-150 | a state the priority chain lists has a move on its category; any other state moves on no category |
| Automaton.ResolvedFrom | reconocedor_gramatica_pseudocodigo_FTI_2025.py:408-449 | a resolved placeholder takes the category of some state of the frontier |
| Automaton.UnresolvedState | reconocedor_gramatica_pseudocodigo_FTI_2025.py:408-449 | when nothing resolves the placeholder, no frontier state is listed by the priority chain |
| Automaton.ResolveElementoExact | reconocedor_gramatica_pseudocodigo_FTI_2025.py:408-461 | the placeholder is resolved iff some frontier state can read one of the four categories, and then to a category some frontier state reads |
| Automaton.UnresolvedRejects | reconocedor_gramatica_pseudocodigo_FTI_2025.py:408-461 | a placeholder left as `ELEMENTO` has no successor, so the string is rejected |
| Automaton.PlaceholderAfterStart | reconocedor_gramatica_pseudocodigo_FTI_2025.py:408-461 | `comienza <x> termina` is rejected: after `comienza` the placeholder has no category |
| Automaton.RunNonEmpty | reconocedor_gramatica_pseudocodigo_FTI_2025.py:459-463 | after every step that is not rejected the frontier is non-empty |
| Automaton.RunAppend | reconocedor_gramatica_pseudocodigo_FTI_2025.py:402-465 | running over a concatenation runs over the first part, then over the second from where it stopped |
| Automaton.TableEnds | reconocedor_gramatica_pseudocodigo_FTI_2025.py:94-101 | only `Comienza` leaves `Q0`; `Q2` has no outgoing transition |
| Automaton.DeltaShape | reconocedor_gramatica_pseudocodigo_FTI_2025.py:93-150 | every table entry has at most one target, except `(Q20, FinMientras)` with `{Q8, Q9}` |
| Automaton.PostPair | reconocedor_gramatica_pseudocodigo_FTI_2025.py:451-457 | the successors of `{Q8, Q9}` are the union of both entries |
| Automaton.PairStep | reconocedor_gramatica_pseudocodigo_FTI_2025.py:107-125 | from `{Q8, Q9}` every symbol leads to `{Q8, Q9}`, a single state, or nowhere |
| Automaton.StepReachable | reconocedor_gramatica_pseudocodigo_FTI_2025.py:408-463 | a step from a single state or from `{Q8, Q9}` leads to one of those shapes, or rejects |
| Automaton.RunReachable | reconocedor_gramatica_pseudocodigo_FTI_2025.py:402-465 | every frontier reached from such a frontier is a single state or `{Q8, Q9}` |
| Automaton.ReachableFromStart | reconocedor_gramatica_pseudocodigo_FTI_2025.py:400-465 | every frontier reached from `{q0}` is a single state or `{Q8, Q9}` |
| Automaton.ResolveSingleton | reconocedor_gramatica_pseudocodigo_FTI_2025.py:408-449 | for a single state, the priority order picks that state's own category |
| Automaton.PostPerStateAdd | reconocedor_gramatica_pseudocodigo_FTI_2025.py:451-457 | per-state successors of a frontier distribute over adding a state |
| Automaton.StepPerStateSingle | reconocedor_gramatica_pseudocodigo_FTI_2025.py:408-457 | on a single state, global resolution equals per-state resolution |
| Automaton.StepPerStatePair | reconocedor_gramatica_pseudocodigo_FTI_2025.py:408-457 | on `{Q8, Q9}`, global resolution equals per-state resolution |
| Automaton.StepPerState | reconocedor_gramatica_pseudocodigo_FTI_2025.py:408-457 | on every frontier that occurs, first-match resolution gives the same successors as per-state resolution |
| Automaton.RunIsPerState | reconocedor_gramatica_pseudocodigo_FTI_2025.py:402-465 | the whole run is the same as a run in which each state resolves the placeholder itself: the first-match rule never discards a state |
| Automaton.ResolveKeepsKeywords | reconocedor_gramatica_pseudocodigo_FTI_2025.py:408-449 | resolution never creates or removes `Termina` or `Comienza` |
| Automaton.IntoFinal | reconocedor_gramatica_pseudocodigo_FTI_2025.py:101 | `Q2` is entered only on `Termina` |
| Automaton.AfterTermina | reconocedor_gramatica_pseudocodigo_FTI_2025.py:93-150 | after `Termina` the frontier is `{Q2}` or empty |
| Automaton.LastIsTermina | reconocedor_gramatica_pseudocodigo_FTI_2025.py:466-468 | a non-empty run that ends in the final state ends with `Termina` |
| Automaton.NothingAfterTermina | reconocedor_gramatica_pseudocodigo_FTI_2025.py:93-150 | any symbol after `Termina` rejects |
| Automaton.AcceptedShape | reconocedor_gramatica_pseudocodigo_FTI_2025.py:392-468 | an accepted list starts with `Comienza`, ends with `Termina`, and has no other `Termina` |
| Automaton.EmptyRejected | reconocedor_gramatica_pseudocodigo_FTI_2025.py:400-467 | the empty symbol list is rejected |
| Automaton.SmallestProgram | reconocedor_gramatica_pseudocodigo_FTI_2025.py:667 | `[Comienza, Termina]` is accepted |
| Automaton.AssignmentProgram | reconocedor_gramatica_pseudocodigo_FTI_2025.py:94-148 | `Comienza, Asignacion, PuntoComa, Termina` is accepted along `Q0, Q1, Q28, Q1, Q2` |
| Automaton.SpacedAssignmentAccepted | reconocedor_gramatica_pseudocodigo_FTI_2025.py:392-468 | with spaces, `comienza x=<e>; termina` is accepted for every bare name `x` and alphanumeric `e` |
| Automaton.DenseEqualsRejected | reconocedor_gramatica_pseudocodigo_FTI_2025.py:392-468 | text without a space that holds `=` is rejected |
| Automaton.AssignmentReadsTwoWays | reconocedor_gramatica_pseudocodigo_FTI_2025.py:343-468 | the same assignment program is accepted with spaces and rejected without them |
| Automaton.RunStep | reconocedor_gramatica_pseudocodigo_FTI_2025.py:402-465 | one step from a single state with a single target |
| Automaton.PathRun | reconocedor_gramatica_pseudocodigo_FTI_2025.py:402-465 | a path of single states through the table is the run's frontier sequence |
| Automaton.WriteProgram | reconocedor_gramatica_pseudocodigo_FTI_2025.py:671-672 | the symbols of `comienza escribir <resultado>; termina` are accepted |
| Automaton.IfProgram | reconocedor_gramatica_pseudocodigo_FTI_2025.py:680 | the symbols of `comienza si <condicion1> entonces <accion1> finsi termina` are accepted |
| Automaton.LeaveNestedLoop | reconocedor_gramatica_pseudocodigo_FTI_2025.py:107-145 | `finmientras finsi` from `Q20` passes through `{Q8, Q9}` back to `Q1` |
| Automaton.EnterThen | reconocedor_gramatica_pseudocodigo_FTI_2025.py:94-106 | `comienza si <c> entonces` reaches `{Q8}` |
| Automaton.CloseThen | reconocedor_gramatica_pseudocodigo_FTI_2025.py:101-109 | `<i> finsi termina` from `Q8` reaches `{Q2}` through `Q1` |
| Automaton.EnterNestedLoop | reconocedor_gramatica_pseudocodigo_FTI_2025.py:122-144 | `mientras <c> hacer <i>` from `Q8` reaches `{Q20}` |
| Automaton.ThenNestedLoop | reconocedor_gramatica_pseudocodigo_FTI_2025.py:697 | the nested prefix reaches `{Q20}` |
| Automaton.CloseNestedLoop | reconocedor_gramatica_pseudocodigo_FTI_2025.py:697 | the nested suffix from `Q20` reaches `{Q2}` |
| Automaton.NestedProgram | reconocedor_gramatica_pseudocodigo_FTI_2025.py:697 | the symbols of the while-inside-if example are accepted |
| Automaton.TrailingWordRejected | reconocedor_gramatica_pseudocodigo_FTI_2025.py:729 | the symbols of `comienza termina leer <x>` are rejected |

## Left out

- User interface and I/O are outside the model: the console menu, interactive mode, file reading, per-line and multi-line drivers, `mostrar_automata`, the automatic test driver, and every `print` of `procesar_cadena`.
- `str.isalnum` and `str.isspace` are ASCII here: letters and digits, and the ASCII whitespace characters. Python's Unicode letters, digits and spaces (`ñ`, `²`, no-break space) are not modelled. The switch to the dense segmenter is exactly "the text holds a `' '`", as in the source.
- PascalSplit.DividirPascalCase: the source stores every complete decomposition in `palabras_posibles` and then takes `max(..., key=len)`. The method keeps the best one found so far instead. `AllSplits` lists the decompositions in the source's depth-first order, and `BestIsFirstLongest` proves that the kept one is the first longest of that list.
- Segmenter.EscanearEn and Segmenter.EscanearPalabras: the body of the source's `while` loop is written as these two methods called from `TokenizarCadenaSinEspacios`. Their branches are the same as the source's.
- Segmenter.FinDeSegmento and Classifier.SepararPalabras: parts of a source loop body written as methods of their own, called where the source runs that code inline.
- PascalSplit.BuscarDivision: Python's recursion limit (1000 frames by default) is not modelled. `buscar_division` recurses once per word, so in the source a text without spaces made of about a thousand keywords (`si` repeated 1000 times) raises `RecursionError` out of `procesar_cadena`. The model always returns the split, and `ProcesarCadena` returns a verdict for such a text.
- Lexicon.IsSpelling: membership in the candidate list is stated as "some index of the list holds the word", equivalent to `in` on the list.
- Segmenter.LongestKeywordAt: the list `palabras_candidatas` is not built. Only its first element is computed, which is all the source uses.
- In `analizar_palabras`, the test `palabra == ';'` is not a separate branch. `;` is a lexicon key, so the lookup before it always catches that word.
- State `Q5` is declared with the others but has no transitions, so it is never reached.
- Concrete runs are stated on symbol lists: `SmallestProgram`, `WriteProgram`, `IfProgram`, `NestedProgram` and `TrailingWordRejected`. The model does not evaluate the classification of whole texts on literal strings. `KeywordWord` proves that each keyword, as a word of its own, becomes its entry's symbol (`TerminaWord` for `termina`). `ClassifyBaseExact` says which other words become `Asignacion`, `Elemento` or `Invalido`.
- Apart from assignments (see the paragraph before "## Model"), no lemma relates the dense path to the whitespace path for the same program.
- Several inputs that the source's example list marks as accepted are rejected by the code as written. The model follows the code; these are faults in the examples' annotations, not in the recogniser:
  - `comienza leer <x> termina`: after `leer <x>` the automaton waits for `;`.
  - `comienza <x>=<5>; termina`: a `<a>=<b>` word is invalid, because an assignment's left side must be a bare name (`BracketedAssignmentInvalid`).
  - `comienza si <edad> entonces escribir <mensaje> finsi termina`: `Q8` has no `escribir` transition.
  - every example spelled `Comenza...`: `Comenza` is not a lexicon spelling.
