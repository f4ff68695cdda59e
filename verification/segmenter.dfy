/**
 * `tokenizar_cadena_sin_espacios`: cut text written without spaces into the
 * words the classifier reads: `<a>=<b>` and `<...>` spans, `;`, and keyword
 * spellings recovered from runs of concatenated keywords.
 */
module Segmenter {
  import opened Wrappers
  import opened Lexicon
  import opened PascalSplit

  /** `s.find(c, from)`: the first index at or after `from` that holds `c`, or -1. */
  function Find(s: string, c: char, from: nat): (r: int)
    ensures r == -1 || (from <= r < |s| && s[r] == c)
    ensures forall k :: from <= k < |s| && (r == -1 || k < r) ==> s[k] != c
    decreases |s| - from
  {
    if from >= |s| then -1
    else if s[from] == c then from
    else Find(s, c, from + 1)
  }

  predicate IsDelimiter(c: char) {
    c == '<' || c == ';'
  }

  /** Where the run of text starting at `i` stops: at the next `<` or `;`, or at the end. */
  function RunEnd(s: string, i: nat): (j: nat)
    requires i <= |s|
    ensures i <= j <= |s| && (j == |s| || IsDelimiter(s[j]))
    ensures forall k :: i <= k < j ==> !IsDelimiter(s[k])
    decreases |s| - i
  {
    if i == |s| || IsDelimiter(s[i]) then i else RunEnd(s, i + 1)
  }

  /** The first spelling in `Candidates[n..]` that the text at `i` starts with. */
  function FirstPrefixFrom(s: string, i: nat, n: nat): (r: Option<nat>)
    requires i <= |s| && n <= |Candidates|
    ensures r.Some? ==> n <= r.value < |Candidates| && IsPrefix(Candidates[r.value], s[i..])
    ensures forall k :: n <= k < |Candidates| && (r.None? || k < r.value) ==> !IsPrefix(Candidates[k], s[i..])
    decreases |Candidates| - n
  {
    if n == |Candidates| then None
    else if IsPrefix(Candidates[n], s[i..]) then Some(n)
    else FirstPrefixFrom(s, i, n + 1)
  }

  /**
   * The fallback of the segmenter: the index of the longest spelling that the
   * text at `i` starts with (the first of `palabras_candidatas`).
   */
  function LongestKeywordAt(s: string, i: nat): (r: Option<nat>)
    requires i <= |s|
    ensures r.Some? ==> r.value < |Candidates| && IsPrefix(Candidates[r.value], s[i..])
    ensures r.Some? ==> forall m :: 0 <= m < |Candidates| && IsPrefix(Candidates[m], s[i..]) ==>
                                    |Candidates[m]| <= |Candidates[r.value]|
    ensures r.None? ==> forall m :: 0 <= m < |Candidates| ==> !IsPrefix(Candidates[m], s[i..])
  {
    var r := FirstPrefixFrom(s, i, 0);
    if r.Some? then
      assert forall m :: 0 <= m < |Candidates| && IsPrefix(Candidates[m], s[i..]) ==>
               |Candidates[m]| <= |Candidates[r.value]| by {
        forall m | 0 <= m < |Candidates| && IsPrefix(Candidates[m], s[i..])
          ensures |Candidates[m]| <= |Candidates[r.value]|
        {
          if m != r.value { CandidatesSorted(r.value, m); }
        }
      }
      r
    else
      r
  }

  /** Every word the segmenter emits has one of these shapes. */
  predicate TokenShape(t: string) {
    t == ";" || IsSpelling(t) || |t| == 1 || (|t| >= 2 && t[0] == '<' && t[|t| - 1] == '>')
  }

  predicate WellFormed(toks: seq<string>) {
    forall k :: 0 <= k < |toks| ==> |toks[k]| > 0 && TokenShape(toks[k])
  }

  /** Emit `s[start..close]` and, when a `;` follows it, that `;` on its own. */
  function Peel(s: string, start: nat, close: nat): (r: (seq<string>, nat))
    requires start < close < |s|
    ensures start < r.1 <= |s|
  {
    if close + 1 < |s| && s[close + 1] == ';' then
      ([s[start..close + 1], ";"], close + 2)
    else
      ([s[start..close + 1]], close + 1)
  }

  /** A run of letters: its best keyword split, else its longest keyword prefix, else one character. */
  function KeywordStep(s: string, i: nat): (r: (seq<string>, nat))
    requires i < |s|
    ensures i < r.1 <= |s|
  {
    var j := RunEnd(s, i);
    if j > i && Division(s[i..j]) != [] then
      (Division(s[i..j]), j)
    else if j > i && LongestKeywordAt(s, i).Some? then
      var k := LongestKeywordAt(s, i).value;
      CandidateLength(k);
      ([Candidates[k]], i + |Candidates[k]|)
    else
      ([s[i..i + 1]], i + 1)
  }

  /** One pass of the segmenter's loop at position `i`: the words it emits and where it resumes. */
  function ScanAt(s: string, i: nat): (r: (seq<string>, nat))
    requires i < |s|
    ensures i < r.1 <= |s|
  {
    if s[i] == '<' then
      var c1 := Find(s, '>', i);
      var c2 := if c1 != -1 && c1 + 2 < |s| && s[c1 + 1] == '=' && s[c1 + 2] == '<'
                then Find(s, '>', c1 + 2) else -1;
      if c2 != -1 then Peel(s, i, c2)
      else if c1 != -1 then Peel(s, i, c1)
      else KeywordStep(s, i)
    else if s[i] == ';' then
      ([";"], i + 1)
    else
      KeywordStep(s, i)
  }

  // ---------------------------------------------------------------------------
  // Each pass emits exactly the text it steps over, as well-formed words.

  lemma PeelCovers(s: string, start: nat, close: nat)
    requires start < close < |s| && s[start] == '<' && s[close] == '>'
    ensures var r := Peel(s, start, close); Concat(r.0) == s[start..r.1] && WellFormed(r.0)
  {
    if close + 1 < |s| && s[close + 1] == ';' {
      assert s[start..close + 2] == s[start..close + 1] + [s[close + 1]];
    }
  }

  /** Spellings are non-empty words of the segmenter's shape. */
  lemma {:induction false} SpellingsWellFormed(d: seq<string>)
    requires forall k :: 0 <= k < |d| ==> IsSpelling(d[k])
    ensures WellFormed(d)
  {
    forall k | 0 <= k < |d| ensures |d[k]| > 0 {
      CandidateLetters(IndexOfCandidate(d[k]));
    }
  }

  lemma KeywordPrefixStep(s: string, i: nat, k: nat)
    requires i <= |s| && k < |Candidates| && IsPrefix(Candidates[k], s[i..])
    ensures var w := Candidates[k];
      |w| > 0 && i + |w| <= |s| && Concat([w]) == s[i..i + |w|] && WellFormed([w])
  {
    var w := Candidates[k];
    CandidateLength(k);
    assert s[i..i + |w|] == s[i..][..|w|];
    assert Concat([w]) == w + Concat([]);
  }

  lemma KeywordStepCovers(s: string, i: nat)
    requires i < |s|
    ensures var r := KeywordStep(s, i); Concat(r.0) == s[i..r.1] && WellFormed(r.0)
  {
    var j := RunEnd(s, i);
    if j > i && Division(s[i..j]) != [] {
      DivisionSound(s[i..j]);
      SpellingsWellFormed(Division(s[i..j]));
    } else if j > i && LongestKeywordAt(s, i).Some? {
      KeywordPrefixStep(s, i, LongestKeywordAt(s, i).value);
    } else {
      assert Concat([s[i..i + 1]]) == s[i..i + 1] + Concat([]);
    }
  }

  lemma ScanAtCovers(s: string, i: nat)
    requires i < |s|
    ensures Concat(ScanAt(s, i).0) == s[i..ScanAt(s, i).1]
    ensures WellFormed(ScanAt(s, i).0)
  {
    if s[i] == '<' {
      var c1 := Find(s, '>', i);
      var c2 := if c1 != -1 && c1 + 2 < |s| && s[c1 + 1] == '=' && s[c1 + 2] == '<'
                then Find(s, '>', c1 + 2) else -1;
      if c2 != -1 {
        assert ScanAt(s, i) == Peel(s, i, c2);
        PeelCovers(s, i, c2);
      } else if c1 != -1 {
        assert ScanAt(s, i) == Peel(s, i, c1);
        PeelCovers(s, i, c1);
      } else {
        assert ScanAt(s, i) == KeywordStep(s, i);
        KeywordStepCovers(s, i);
      }
    } else if s[i] == ';' {
      assert ScanAt(s, i) == ([";"], i + 1);
      assert Concat([";"]) == ";" + Concat([]);
    } else {
      assert ScanAt(s, i) == KeywordStep(s, i);
      KeywordStepCovers(s, i);
    }
  }

  /** The words the segmenter emits from position `i` on. */
  function DenseFrom(s: string, i: nat): seq<string>
    requires i <= |s|
    decreases |s| - i
  {
    if i == |s| then []
    else
      var step := ScanAt(s, i);
      step.0 + DenseFrom(s, step.1)
  }

  function Dense(s: string): seq<string> {
    DenseFrom(s, 0)
  }

  lemma {:induction false} ConcatAppend(a: seq<string>, b: seq<string>)
    ensures Concat(a + b) == Concat(a) + Concat(b)
  {
    if a == [] {
      assert a + b == b;
    } else {
      assert (a + b)[0] == a[0];
      assert (a + b)[1..] == a[1..] + b;
      ConcatAppend(a[1..], b);
    }
  }

  lemma ConcatJoin(s: string, i: nat, next: nat, a: seq<string>, b: seq<string>)
    requires i <= next <= |s| && Concat(a) == s[i..next] && Concat(b) == s[next..]
    ensures Concat(a + b) == s[i..]
  {
    ConcatAppend(a, b);
    assert s[i..] == s[i..next] + s[next..];
  }

  lemma DenseFromUnfold(s: string, i: nat)
    requires i < |s|
    ensures DenseFrom(s, i) == ScanAt(s, i).0 + DenseFrom(s, ScanAt(s, i).1)
  {
  }

  /** The segmenter loses and invents nothing: its words, put back together, are the input. */
  lemma {:induction false} DenseFromCovers(s: string, i: nat)
    requires i <= |s|
    ensures Concat(DenseFrom(s, i)) == s[i..]
    decreases |s| - i
  {
    if i < |s| {
      var step := ScanAt(s, i);
      ScanAtCovers(s, i);
      DenseFromCovers(s, step.1);
      ConcatJoin(s, i, step.1, step.0, DenseFrom(s, step.1));
    }
  }

  /** Every word the segmenter emits is non-empty and of one of the shapes above. */
  lemma {:induction false} DenseFromWellFormed(s: string, i: nat)
    requires i <= |s|
    ensures WellFormed(DenseFrom(s, i))
    decreases |s| - i
  {
    if i < |s| {
      var step := ScanAt(s, i);
      ScanAtCovers(s, i);
      DenseFromWellFormed(s, step.1);
    }
  }

  /** One pass of the loop of `tokenizar_cadena_sin_espacios`, at position `i`. */
  method EscanearEn(cadena: string, i: nat) returns (emitidos: seq<string>, siguiente: nat)
    requires i < |cadena|
    ensures (emitidos, siguiente) == ScanAt(cadena, i)
  {
    if cadena[i] == '<' {
      // an assignment span `<a>=<b>` first
      var primerCierre := Find(cadena, '>', i);
      if primerCierre != -1 && primerCierre + 1 < |cadena| && cadena[primerCierre + 1] == '=' {
        var segundoInicio := primerCierre + 2;
        if segundoInicio < |cadena| && cadena[segundoInicio] == '<' {
          var segundoCierre := Find(cadena, '>', segundoInicio);
          if segundoCierre != -1 {
            var asignacion := cadena[i..segundoCierre + 1];
            if segundoCierre + 1 < |cadena| && cadena[segundoCierre + 1] == ';' {
              return [asignacion, ";"], segundoCierre + 2;
            }
            return [asignacion], segundoCierre + 1;
          }
        }
      }
      // otherwise a plain `<...>` span
      var finElemento := Find(cadena, '>', i);
      if finElemento != -1 {
        var elemento := cadena[i..finElemento + 1];
        if finElemento + 1 < |cadena| && cadena[finElemento + 1] == ';' {
          return [elemento, ";"], finElemento + 2;
        }
        return [elemento], finElemento + 1;
      }
    } else if cadena[i] == ';' {
      return [";"], i + 1;
    }
    emitidos, siguiente := EscanearPalabras(cadena, i);
  }

  /** The scan forward to the next `<` or `;`, or to the end. */
  method FinDeSegmento(cadena: string, i: nat) returns (j: nat)
    requires i <= |cadena|
    ensures j == RunEnd(cadena, i)
  {
    j := i;
    while j < |cadena| && !IsDelimiter(cadena[j])
      invariant i <= j <= |cadena|
      invariant forall k :: i <= k < j ==> !IsDelimiter(cadena[k])
    {
      j := j + 1;
    }
  }

  /** The keyword block of that pass: the run of text up to the next `<` or `;`. */
  method EscanearPalabras(cadena: string, i: nat) returns (emitidos: seq<string>, siguiente: nat)
    requires i < |cadena|
    ensures (emitidos, siguiente) == KeywordStep(cadena, i)
  {
    var j := FinDeSegmento(cadena, i);
    var segmento := cadena[i..j];
    if segmento != [] {
      var division := DividirPascalCase(segmento);
      if division != [] {
        return division, j;
      }
    }
    // no split: the longest spelling the text starts with, else one
    // character, which the classifier marks invalid
    if j > i {
      var elegida := LongestKeywordAt(cadena, i);
      if elegida.Some? {
        var palabra := Candidates[elegida.value];
        CandidateLength(elegida.value);
        return [palabra], i + |palabra|;
      }
    }
    return [cadena[i..i + 1]], i + 1;
  }

  /** `tokenizar_cadena_sin_espacios(cadena)`. */
  method TokenizarCadenaSinEspacios(cadena: string) returns (tokens: seq<string>)
    ensures tokens == Dense(cadena)
  {
    tokens := [];
    var i := 0;
    while i < |cadena|
      invariant i <= |cadena|
      invariant tokens + DenseFrom(cadena, i) == Dense(cadena)
      decreases |cadena| - i
    {
      var emitidos, siguiente := EscanearEn(cadena, i);
      DenseFromUnfold(cadena, i);
      tokens := tokens + emitidos;
      i := siguiente;
    }
  }
}
