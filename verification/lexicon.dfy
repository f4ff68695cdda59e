/** Option, the only wrapper the model needs. */
module Wrappers {
  datatype Option<+T> = None | Some(value: T)
}

/**
 * The recogniser's fixed vocabulary: the grammar symbols and the table of
 * case-sensitive keyword spellings (the dictionary `palabras_validas`).
 */
module Lexicon {
  import opened Wrappers

  /** Every symbol tag the classifier and the automaton use. */
  datatype Symbol =
    | Comienza | Leer | Escribir | Si | Entonces | Sino | FinSi
    | Mientras | Hacer | FinMientras | Repetir | HastaQue | Termina
    | PuntoComa
    | Asignacion
    | Elemento                                     // a placeholder not yet resolved
    | Variable | Expresion | Condicion | Instrucciones  // what Elemento resolves to
    | Invalido

  /** The symbols that the lexicon table maps spellings to. */
  predicate IsKeywordSymbol(x: Symbol) {
    x in {Comienza, Leer, Escribir, Si, Entonces, Sino, FinSi, Mientras, Hacer,
          FinMientras, Repetir, HastaQue, Termina, PuntoComa}
  }

  /** The lexicon, in the dictionary's insertion order. */
  const Entries: seq<(string, Symbol)> := [
    ("comienza", Comienza), ("leer", Leer), ("escribir", Escribir), ("si", Si),
    ("entonces", Entonces), ("sino", Sino), ("finsi", FinSi), ("mientras", Mientras),
    ("hacer", Hacer), ("finmientras", FinMientras), ("repetir", Repetir),
    ("hastaque", HastaQue), ("termina", Termina), (";", PuntoComa),
    ("Comienza", Comienza), ("Leer", Leer), ("Escribir", Escribir), ("Si", Si),
    ("Entonces", Entonces), ("Sino", Sino), ("FinSi", FinSi), ("Mientras", Mientras),
    ("Hacer", Hacer), ("FinMientras", FinMientras), ("Repetir", Repetir),
    ("HastaQue", HastaQue), ("Hasta", HastaQue), ("Termina", Termina)
  ]

  /** Position of a spelling in the lexicon's insertion order. */
  function PositionIn(es: seq<(string, Symbol)>, w: string): (r: Option<nat>)
    ensures r.Some? ==> r.value < |es| && es[r.value].0 == w
    ensures r.Some? ==> forall k :: 0 <= k < r.value ==> es[k].0 != w
    ensures r.None? ==> forall k :: 0 <= k < |es| ==> es[k].0 != w
  {
    if es == [] then None
    else if es[0].0 == w then Some(0)
    else match PositionIn(es[1..], w)
      case None => None
      case Some(k) => Some(k + 1)
  }

  /** The dictionary literal holds no key twice. */
  lemma EntryKeysDistinct(i: nat, j: nat)
    requires i < j < |Entries|
    ensures Entries[i].0 != Entries[j].0
  {
    assert |Entries| == 28;
  }

  /** The entry at `k` spells `w`. */
  predicate Spells(k: nat, w: string) {
    k < |Entries| && Entries[k].0 == w
  }

  /** The entry at `k` is the only one spelled `w`. */
  lemma OnlyEntry(w: string, k: nat)
    requires k < |Entries| && Entries[k].0 == w
    ensures forall j: nat :: Spells(j, w) ==> j == k
  {
    forall j: nat | Spells(j, w)
      ensures j == k
    {
      if j < k {
        EntryKeysDistinct(j, k);
      } else if k < j {
        EntryKeysDistinct(k, j);
      }
    }
  }

  /**
   * Exact, case-sensitive dictionary lookup: a word has a symbol iff some
   * entry spells it, and then it is that entry's symbol.
   */
  function Lookup(w: string): (r: Option<Symbol>)
    ensures r.Some? <==> exists k :: 0 <= k < |Entries| && Entries[k].0 == w
    ensures forall k: nat :: Spells(k, w) ==> r == Some(Entries[k].1)
    ensures r.Some? ==> IsKeywordSymbol(r.value)
  {
    match PositionIn(Entries, w)
    case None => None
    case Some(k) => EntrySymbol(k); OnlyEntry(w, k); Some(Entries[k].1)
  }

  /** Every entry maps its spelling to a keyword symbol or to `PuntoComa`. */
  lemma EntrySymbol(k: nat)
    requires k < |Entries|
    ensures IsKeywordSymbol(Entries[k].1)
  {
    assert |Entries| == 28;
  }

  predicate IsKey(w: string) {
    Lookup(w).Some?
  }

  /**
   * The lexicon's spellings other than ";", sorted by length, longest first,
   * equal lengths kept in insertion order (a stable descending sort): the
   * order in which the dense segmenter tries keywords.
   */
  const Candidates: seq<string> := [
    "finmientras", "FinMientras",
    "comienza", "escribir", "entonces", "mientras", "hastaque",
    "Comienza", "Escribir", "Entonces", "Mientras", "HastaQue",
    "repetir", "termina", "Repetir", "Termina",
    "finsi", "hacer", "FinSi", "Hacer", "Hasta",
    "leer", "sino", "Leer", "Sino",
    "si", "Si"
  ]

  /** `w` is one of the first `n` spellings the segmenter tries. */
  predicate SpelledBefore(w: string, n: nat) {
    exists i :: 0 <= i < n && i < |Candidates| && Candidates[i] == w
  }

  /** `w` is one of the spellings the segmenter tries. */
  predicate IsSpelling(w: string) {
    SpelledBefore(w, |Candidates|)
  }

  lemma SpelledBeforeStep(w: string, n: nat)
    requires 0 < n <= |Candidates|
    ensures SpelledBefore(w, n) <==> SpelledBefore(w, n - 1) || Candidates[n - 1] == w
  {
    if Candidates[n - 1] == w {
      assert Candidates[n - 1] == w;  // the index `n - 1` witnesses `SpelledBefore(w, n)`
    }
  }

  /** Where each spelling of `Candidates` stands in `Entries`. */
  const CandidatePositions: seq<nat> :=
    [9, 23, 0, 2, 4, 7, 11, 14, 16, 18, 21, 25, 10, 12, 24, 27, 6, 8, 20, 22, 26, 1, 5, 15, 19, 3, 17]

  lemma CandidateAt(i: nat)
    requires i < |Candidates|
    ensures CandidatePositions[i] < |Entries| && Entries[CandidatePositions[i]].0 == Candidates[i]
  {
    assert |Candidates| == |CandidatePositions| == 27;
  }

  /** Where each entry's spelling stands in `Candidates` (entry 13, ";", has none). */
  const EntryIndex: seq<nat> :=
    [2, 21, 3, 25, 4, 22, 16, 5, 17, 0, 12, 6, 13, 0, 7, 23, 8, 26, 9, 24, 18, 10, 19, 1, 14, 11, 20, 15]

  lemma EntryAt(k: nat)
    requires k < |Entries|
    ensures k == 13 <==> Entries[k].0 == ";"
    ensures k != 13 ==> EntryIndex[k] < |Candidates| && Candidates[EntryIndex[k]] == Entries[k].0
  {
    assert |Entries| == |EntryIndex| == 28;
  }

  /** The position among the spellings of a key other than ";". */
  lemma KeyIndex(w: string) returns (i: nat)
    requires IsKey(w) && w != ";"
    ensures i < |Candidates| && Candidates[i] == w
  {
    var k := PositionIn(Entries, w).value;
    EntryAt(k);
    i := EntryIndex[k];
  }

  /** Every key but `;` has at least two characters. */
  lemma KeyLength(w: string)
    ensures IsKey(w) && w != ";" ==> |w| >= 2
  {
    if IsKey(w) && w != ";" {
      var i := KeyIndex(w);
      CandidateLength(i);
    }
  }

  /** The spellings are exactly the lexicon keys other than ";". */
  lemma CandidatesAreKeys(w: string)
    ensures IsSpelling(w) <==> IsKey(w) && w != ";"
  {
    if IsSpelling(w) {
      var i :| 0 <= i < |Candidates| && Candidates[i] == w;
      CandidateAt(i);
      CandidateLetters(i);
      assert w[0] != ';';
    }
    if IsKey(w) && w != ";" {
      var i := KeyIndex(w);
    }
  }

  /** `c[i]` is no shorter than `c[j]`, and when equally long comes first in the lexicon. */
  predicate InOrder(c: seq<string>, pos: seq<nat>, i: nat, j: nat)
    requires i < |c| && j < |c| && |c| == |pos|
  {
    |c[i]| >= |c[j]| && (|c[i]| == |c[j]| ==> pos[i] < pos[j])
  }

  predicate AdjacentInOrder(c: seq<string>, pos: seq<nat>, k: nat)
    requires k + 1 < |c| && |c| == |pos|
  {
    InOrder(c, pos, k, k + 1)
  }

  /** Order between neighbours extends to order between any two positions. */
  lemma {:induction false} ChainInOrder(c: seq<string>, pos: seq<nat>, i: nat, j: nat)
    requires |c| == |pos| && i < j < |c|
    requires forall k :: 0 <= k && k + 1 < |c| ==> AdjacentInOrder(c, pos, k)
    ensures InOrder(c, pos, i, j)
    decreases j - i
  {
    assert AdjacentInOrder(c, pos, i);
    if i + 1 < j {
      ChainInOrder(c, pos, i + 1, j);
    }
  }

  /** Adjacent spellings: never longer, and equal lengths in insertion order. */
  lemma CandidatesSortedStep(k: nat)
    requires k + 1 < |Candidates|
    ensures AdjacentInOrder(Candidates, CandidatePositions, k)
  {
    assert |CandidatePositions| == 27;
  }

  /** Longest first, and equal lengths in the lexicon's insertion order. */
  lemma CandidatesSorted(i: nat, j: nat)
    requires i < j < |Candidates|
    ensures |Candidates[i]| >= |Candidates[j]|
    ensures |Candidates[i]| == |Candidates[j]| ==> CandidatePositions[i] < CandidatePositions[j]
  {
    assert |CandidatePositions| == 27;
    forall k | 0 <= k && k + 1 < |Candidates|
      ensures AdjacentInOrder(Candidates, CandidatePositions, k)
    {
      CandidatesSortedStep(k);
    }
    ChainInOrder(Candidates, CandidatePositions, i, j);
  }

  /** Every spelling has at least two characters, so the search always makes progress. */
  lemma CandidateLength(i: nat)
    requires i < |Candidates|
    ensures |Candidates[i]| >= 2
  {
    assert |Candidates| == 27;
  }

  /** What the word tests rely on: spellings are letters only. */
  lemma CandidateLetters(i: nat)
    requires i < |Candidates|
    ensures forall k :: 0 <= k < |Candidates[i]| ==> IsLetter(Candidates[i][k])
  {
    assert |Candidates| == 27;
  }

  predicate IsLetter(c: char) {
    'a' <= c <= 'z' || 'A' <= c <= 'Z'
  }
}
