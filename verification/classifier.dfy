/**
 * `analizar_palabras`: cut the input into words (on whitespace when it holds
 * a space, with the dense segmenter otherwise) and give each word its symbol.
 */
module Classifier {
  import opened Lexicon
  import opened Words
  import opened PascalSplit
  import opened Segmenter

  // ---------------------------------------------------------------------------
  // `str.split()`: words are the maximal runs of non-whitespace.

  /** `str.isspace` on ASCII: space, tab, line feed, vertical tab, form feed, carriage return, and 0x1C-0x1F. */
  predicate IsSpace(c: char) {
    c == ' ' || '\t' <= c <= '\r' || '\U{1C}' <= c <= '\U{1F}'
  }

  /** Where the word starting at `i` stops: at the next whitespace, or at the end. */
  function WordEnd(s: string, i: nat): (j: nat)
    requires i <= |s|
    ensures i <= j <= |s| && (j == |s| || IsSpace(s[j]))
    ensures forall k :: i <= k < j ==> !IsSpace(s[k])
    decreases |s| - i
  {
    if i == |s| || IsSpace(s[i]) then i else WordEnd(s, i + 1)
  }

  function Split(s: string): seq<string>
    decreases |s|
  {
    if s == [] then []
    else if IsSpace(s[0]) then Split(s[1..])
    else
      var j := WordEnd(s, 0);
      [s[..j]] + Split(s[j..])
  }

  /** A word of `str.split()`: non-empty, without whitespace. */
  predicate IsWord(w: string) {
    |w| > 0 && forall k :: 0 <= k < |w| ==> !IsSpace(w[k])
  }

  /** The words joined with one space between each two. */
  function Join(ws: seq<string>): string {
    if ws == [] then []
    else if |ws| == 1 then ws[0]
    else ws[0] + " " + Join(ws[1..])
  }

  /** The characters of `s` that are not whitespace, in order. */
  function NonSpace(s: string): string {
    if s == [] then []
    else (if IsSpace(s[0]) then [] else [s[0]]) + NonSpace(s[1..])
  }

  /** Every word `Split` returns is non-empty and holds no whitespace. */
  lemma {:induction false} SplitWords(s: string)
    ensures forall k :: 0 <= k < |Split(s)| ==> IsWord(Split(s)[k])
    decreases |s|
  {
    if s != [] {
      if IsSpace(s[0]) {
        SplitWords(s[1..]);
      } else {
        var j := WordEnd(s, 0);
        SplitWords(s[j..]);
        assert IsWord(s[..j]);
      }
    }
  }

  lemma {:induction false} NonSpaceAppend(a: string, b: string)
    ensures NonSpace(a + b) == NonSpace(a) + NonSpace(b)
  {
    if a != [] {
      assert (a + b)[1..] == a[1..] + b;
      NonSpaceAppend(a[1..], b);
    } else {
      assert a + b == b;
    }
  }

  lemma {:induction false} NonSpaceOfWord(w: string)
    requires forall k :: 0 <= k < |w| ==> !IsSpace(w[k])
    ensures NonSpace(w) == w
  {
    if w != [] {
      NonSpaceOfWord(w[1..]);
    }
  }

  /** Splitting drops the whitespace and nothing else. */
  lemma {:induction false} SplitKeepsText(s: string)
    ensures Concat(Split(s)) == NonSpace(s)
    decreases |s|
  {
    if s != [] {
      if IsSpace(s[0]) {
        SplitKeepsText(s[1..]);
      } else {
        var j := WordEnd(s, 0);
        SplitKeepsText(s[j..]);
        assert s == s[..j] + s[j..];
        NonSpaceAppend(s[..j], s[j..]);
        NonSpaceOfWord(s[..j]);
        assert ([s[..j]] + Split(s[j..]))[1..] == Split(s[j..]);
      }
    }
  }

  lemma {:induction false} WordEndOfWord(w: string, rest: string, i: nat)
    requires IsWord(w) && (rest == [] || IsSpace(rest[0])) && i <= |w|
    ensures WordEnd(w + rest, i) == |w|
    decreases |w| - i
  {
    var s := w + rest;
    if i < |w| {
      assert s[i] == w[i];
      WordEndOfWord(w, rest, i + 1);
    } else if rest != [] {
      assert s[i] == rest[0];
    }
  }

  /** Splitting undoes joining with single spaces. */
  lemma {:induction false} SplitJoin(ws: seq<string>)
    requires forall k :: 0 <= k < |ws| ==> IsWord(ws[k])
    ensures Split(Join(ws)) == ws
  {
    if ws == [] {
    } else if |ws| == 1 {
      var w := ws[0];
      WordEndOfWord(w, [], 0);
      assert w + [] == w;
      assert w[|w|..] == [];
    } else {
      var w, rest := ws[0], Join(ws[1..]);
      var s := w + " " + rest;
      assert s == w + (" " + rest);
      WordEndOfWord(w, " " + rest, 0);
      assert s[..|w|] == w;
      assert s[|w|..] == " " + rest;
      assert (" " + rest)[1..] == rest;
      SplitJoin(ws[1..]);
      assert [w] + ws[1..] == ws;
    }
  }

  // ---------------------------------------------------------------------------
  // The symbol of one word.

  /**
   * The classification chain of `analizar_palabras`: exact lexicon lookup,
   * then the assignment test, then the placeholder test, else invalid.
   */
  function ClassifyBase(w: string): Symbol {
    match Lookup(w)
    case Some(x) => x
    case None =>
      if EsAsignacion(w) then Asignacion
      else if EsVariable(w) || EsExpresion(w) || EsCondicion(w) || EsInstrucciones(w) then Elemento
      else Invalido
  }

  /**
   * A word of more than one character that ends in `;` gives the symbol of
   * the word without it, then `PuntoComa`; any other word gives its own
   * symbol (`;` itself is a lexicon key, so the separate `;` test of the
   * source is never reached).
   */
  function ClassifyWord(w: string): seq<Symbol> {
    if |w| > 1 && w[|w| - 1] == ';' then [ClassifyBase(w[..|w| - 1]), PuntoComa]
    else [ClassifyBase(w)]
  }

  function ClassifyAll(ws: seq<string>): seq<Symbol> {
    if ws == [] then [] else ClassifyAll(ws[..|ws| - 1]) + ClassifyWord(ws[|ws| - 1])
  }

  /** The words `analizar_palabras` reads: `split()` when the text holds a space, else the dense segmenter. */
  function Palabras(entrada: string): seq<string> {
    if ' ' in entrada then Split(entrada) else Dense(entrada)
  }

  /** The symbols `analizar_palabras(entrada)` returns. */
  function Analyze(entrada: string): seq<Symbol> {
    ClassifyAll(Palabras(entrada))
  }

  /**
   * The order of the chain decides nothing: lexicon words, assignments and
   * placeholders never overlap, and the four-way placeholder test is
   * `EsExpresion` alone.
   */
  lemma ClassifyBaseExact(w: string)
    ensures IsKeywordSymbol(ClassifyBase(w)) <==> IsKey(w)
    ensures IsKey(w) ==> ClassifyBase(w) == Lookup(w).value
    ensures ClassifyBase(w) == Asignacion <==> EsAsignacion(w)
    ensures ClassifyBase(w) == Elemento <==> EsExpresion(w)
    ensures ClassifyBase(w) == Invalido <==> !IsKey(w) && !EsAsignacion(w) && !EsExpresion(w)
  {
    ShapesDisjoint(w);
    ElementTest(w);
  }

  lemma BracketedEqualsInvalid(v: string)
    requires |v| > 0 && v[0] == '<' && '=' in v
    ensures ClassifyBase(v) == Invalido
  {
    BracketedLeftSideRejected(v);
    if IsKey(v) {
      KeyShape(v);
    }
    var p := IndexOf(v, '=');
    if Bracketed(v) {
      assert Interior(v)[p - 1] == '=';
    }
    ElementTest(v);
    assert !EsExpresion(v);
  }

  /** A word that opens with `<` and holds an `=` (a `<a>=<b>` span) is invalid. */
  lemma BracketedAssignmentInvalid(w: string)
    requires |w| > 0 && w[0] == '<' && '=' in w
    ensures ClassifyWord(w)[0] == Invalido
  {
    if |w| > 1 && w[|w| - 1] == ';' {
      var v := w[..|w| - 1];
      var p := IndexOf(w, '=');
      assert v[p] == '=';
      BracketedEqualsInvalid(v);
    } else {
      BracketedEqualsInvalid(w);
    }
  }

  /** A lexicon key, as a word of its own, yields exactly the symbol its entry maps it to. */
  lemma KeywordWord(w: string, k: nat)
    requires k < |Entries| && Entries[k].0 == w
    ensures ClassifyWord(w) == [Entries[k].1]
  {
    assert Spells(k, w);
    if |w| > 1 {
      KeyShape(w);
      assert w != ";";
      assert w[|w| - 1] != ';';
    }
  }

  /** The closing keyword, in either spelling, is the word `Termina`. */
  lemma TerminaWord(w: string)
    requires w == "termina" || w == "Termina"
    ensures ClassifyWord(w) == [Termina]
  {
    if w == "termina" {
      KeywordWord(w, 12);
    } else {
      KeywordWord(w, 27);
    }
  }

  /** One symbol per word, two for a word that carries a trailing `;`. */
  lemma ClassifyWordCount(w: string)
    ensures |ClassifyWord(w)| == 1 || |ClassifyWord(w)| == 2
    ensures |ClassifyWord(w)| == 2 <==> |w| > 1 && w[|w| - 1] == ';'
    ensures |ClassifyWord(w)| == 2 ==> ClassifyWord(w)[1] == PuntoComa
  {
  }

  lemma {:induction false} ClassifyAllAppend(a: seq<string>, b: seq<string>)
    ensures ClassifyAll(a + b) == ClassifyAll(a) + ClassifyAll(b)
    decreases |b|
  {
    if b == [] {
      assert a + b == a;
    } else {
      assert (a + b)[..|a + b| - 1] == a + b[..|b| - 1];
      ClassifyAllAppend(a, b[..|b| - 1]);
    }
  }

  /** At least one symbol and at most two per word. */
  lemma {:induction false} ClassifyAllLength(ws: seq<string>)
    ensures |ws| <= |ClassifyAll(ws)| <= 2 * |ws|
  {
    if ws != [] {
      ClassifyAllLength(ws[..|ws| - 1]);
      ClassifyWordCount(ws[|ws| - 1]);
    }
  }

  /** A word from the dense segmenter never carries a trailing `;` of its own. */
  lemma DenseWordSingle(t: string)
    requires |t| > 0 && TokenShape(t)
    ensures |ClassifyWord(t)| == 1
  {
    if IsSpelling(t) {
      var i := IndexOfCandidate(t);
      CandidateLetters(i);
      assert IsLetter(t[|t| - 1]);
    }
  }

  /** Without a space in the text, every word yields exactly one symbol. */
  lemma {:induction false} DenseSymbolPerWord(ws: seq<string>)
    requires WellFormed(ws)
    ensures |ClassifyAll(ws)| == |ws|
  {
    if ws != [] {
      DenseSymbolPerWord(ws[..|ws| - 1]);
      DenseWordSingle(ws[|ws| - 1]);
    }
  }

  lemma AnalyzeDense(entrada: string)
    requires ' ' !in entrada
    ensures |Analyze(entrada)| == |Dense(entrada)|
  {
    DenseFromWellFormed(entrada, 0);
    DenseSymbolPerWord(Dense(entrada));
  }

  // ---------------------------------------------------------------------------
  // Assignments on the two paths.

  /** A dense word holding `=` is the one character `=` or a `<...>` span. */
  lemma EqualsTokenShape(t: string)
    requires |t| > 0 && TokenShape(t)
    ensures '=' in t ==> t == "=" || t[0] == '<'
  {
    if IsSpelling(t) {
      var i := IndexOfCandidate(t);
      CandidateLetters(i);
    }
  }

  /**
   * A word of the dense segmenter yields one symbol, never `Asignacion`, and
   * `Invalido` when it holds `=`: the segmenter's `<var>=<exp>` spans have a
   * bracketed left side, which `es_asignacion` refuses.
   */
  lemma DenseWordSymbol(t: string)
    requires |t| > 0 && TokenShape(t)
    ensures ClassifyWord(t) == [ClassifyBase(t)]
    ensures ClassifyBase(t) != Asignacion
    ensures '=' in t ==> ClassifyBase(t) == Invalido
  {
    DenseWordSingle(t);
    ClassifyBaseExact(t);
    EqualsTokenShape(t);
    if '=' in t {
      if t[0] == '<' {
        BracketedEqualsInvalid(t);
      } else {
        KeyLength(t);
        assert IndexOf(t, '=') == 0;
      }
    }
  }

  /** A character of a concatenation lies in one of its words. */
  lemma {:induction false} ConcatMember(ws: seq<string>, c: char)
    ensures c in Concat(ws) ==> exists k :: 0 <= k < |ws| && c in ws[k]
  {
    if ws != [] && c in Concat(ws) && c !in ws[0] {
      ConcatMember(ws[1..], c);
      var k :| 0 <= k < |ws[1..]| && c in ws[1..][k];
      assert ws[k + 1] == ws[1..][k];
    }
  }

  /** On the segmenter's words: no `Asignacion`, and `Invalido` as soon as a word holds `=`. */
  lemma {:induction false} DenseSymbols(ws: seq<string>)
    requires WellFormed(ws)
    ensures Asignacion !in ClassifyAll(ws)
    ensures (exists k :: 0 <= k < |ws| && '=' in ws[k]) ==> Invalido in ClassifyAll(ws)
  {
    if ws != [] {
      var init, last := ws[..|ws| - 1], ws[|ws| - 1];
      forall k | 0 <= k < |init|
        ensures |init[k]| > 0 && TokenShape(init[k])
      {
        assert init[k] == ws[k];
      }
      DenseSymbols(init);
      DenseWordSymbol(last);
      if exists k :: 0 <= k < |ws| && '=' in ws[k] {
        var k :| 0 <= k < |ws| && '=' in ws[k];
        if k < |ws| - 1 {
          assert '=' in init[k];
        }
      }
    }
  }

  /** Text without a space never yields `Asignacion`, and yields `Invalido` when it holds `=`. */
  lemma DenseNoAssignment(entrada: string)
    requires ' ' !in entrada
    ensures Asignacion !in Analyze(entrada)
    ensures '=' in entrada ==> Invalido in Analyze(entrada)
  {
    var ws := Dense(entrada);
    DenseFromWellFormed(entrada, 0);
    DenseFromCovers(entrada, 0);
    assert entrada[0..] == entrada;
    ConcatMember(ws, '=');
    DenseSymbols(ws);
  }

  /** A word `x=<e>;`, with `x` a bare name and `e` alphanumeric, is an assignment followed by `;`. */
  lemma AssignmentWord(x: string, e: string)
    requires EsVariable(x) && IsAlnum(e)
    ensures ClassifyWord(x + "=<" + e + ">;") == [Asignacion, PuntoComa]
  {
    var v := x + "=<" + e + ">";
    var w := x + "=<" + e + ">;";
    assert w == v + ";";
    assert w[..|w| - 1] == v;
    AssignmentBase(v, x, e);
  }

  /** Without its `;`, the word `x=<e>` is an assignment. */
  lemma AssignmentBase(v: string, x: string, e: string)
    requires EsVariable(x) && IsAlnum(e) && v == x + "=<" + e + ">"
    ensures ClassifyBase(v) == Asignacion
  {
    assert v[..|x|] == x;
    FirstEqualsAt(v, |x|);
    assert v[|x| + 1..] == "<" + e + ">";
    assert Interior("<" + e + ">") == e;
    ClassifyBaseExact(v);
  }

  /** `x=<e>;` holds no whitespace. */
  lemma AssignmentIsWord(x: string, e: string)
    requires IsAlnum(x) && IsAlnum(e)
    ensures IsWord(x + "=<" + e + ">;")
  {
    var a := x + "=<" + e + ">;";
    forall k | 0 <= k < |a|
      ensures !IsSpace(a[k])
    {
      if k < |x| {
        assert a[k] == x[k];
      } else if |x| + 2 <= k < |x| + 2 + |e| {
        assert a[k] == e[k - |x| - 2];
      }
    }
  }

  /** `split()` cuts `comienza x=<e>; termina` into its three words. */
  lemma SpacedAssignmentWords(t: string, x: string, e: string)
    requires IsAlnum(x) && IsAlnum(e)
    requires t == "comienza " + x + "=<" + e + ">; termina"
    ensures Palabras(t) == ["comienza", x + "=<" + e + ">;", "termina"]
  {
    var a := x + "=<" + e + ">;";
    var ws := ["comienza", a, "termina"];
    AssignmentIsWord(x, e);
    assert ws[1..][1..] == ["termina"];
    assert Join(ws[1..]) == a + " " + "termina";
    assert Join(ws) == "comienza" + " " + (a + " " + "termina");
    assert "comienza " == "comienza" + " ";
    assert ">; termina" == ">;" + " " + "termina";
    assert Join(ws) == t;
    SplitJoin(ws);
    assert t[8] == ' ';
  }

  /** Three words yield their symbols in order. */
  lemma ClassifyThree(a: string, b: string, c: string)
    ensures ClassifyAll([a, b, c]) == ClassifyWord(a) + ClassifyWord(b) + ClassifyWord(c)
  {
    var one, two, three := [a], [a, b], [a, b, c];
    assert three[..2] == two && two[..1] == one && one[..0] == [];
    assert ClassifyAll(one) == ClassifyWord(a);
    assert ClassifyAll(two) == ClassifyAll(one) + ClassifyWord(b);
    assert ClassifyAll(three) == ClassifyAll(two) + ClassifyWord(c);
  }

  /** The three words classify to `Comienza`, `Asignacion`, `PuntoComa`, `Termina`. */
  lemma AssignmentProgramWords(a: string, b: string, c: string, x: string, e: string)
    requires EsVariable(x) && IsAlnum(e)
    requires a == "comienza" && b == x + "=<" + e + ">;" && c == "termina"
    ensures ClassifyAll([a, b, c]) == [Comienza, Asignacion, PuntoComa, Termina]
  {
    ClassifyThree(a, b, c);
    KeywordWord(a, 0);
    AssignmentWord(x, e);
    TerminaWord(c);
    SymbolsOfThree(ClassifyWord(a), ClassifyWord(b), ClassifyWord(c));
  }

  lemma SymbolsOfThree(sa: seq<Symbol>, sb: seq<Symbol>, sc: seq<Symbol>)
    requires sa == [Comienza] && sb == [Asignacion, PuntoComa] && sc == [Termina]
    ensures sa + sb + sc == [Comienza, Asignacion, PuntoComa, Termina]
  {
  }

  /** `comienza x=<e>; termina` yields the symbols of an assignment program. */
  lemma SpacedAssignmentSymbols(t: string, x: string, e: string)
    requires EsVariable(x) && IsAlnum(e)
    requires t == "comienza " + x + "=<" + e + ">; termina"
    ensures Analyze(t) == [Comienza, Asignacion, PuntoComa, Termina]
  {
    SpacedAssignmentWords(t, x, e);
    AssignmentProgramWords("comienza", x + "=<" + e + ">;", "termina", x, e);
  }

  /** `comienzax=<e>;termina` holds an `=` and no space. */
  lemma DenseAssignmentText(dense: string, x: string, e: string)
    requires IsAlnum(x) && IsAlnum(e)
    requires dense == "comienza" + x + "=<" + e + ">;termina"
    ensures ' ' !in dense && '=' in dense
  {
    forall k | 0 <= k < |dense|
      ensures dense[k] != ' '
    {
      if 8 <= k < 8 + |x| {
        assert dense[k] == x[k - 8];
      } else if 10 + |x| <= k < 10 + |x| + |e| {
        assert dense[k] == e[k - 10 - |x|];
      }
    }
    assert dense[8 + |x|] == '=';
  }

  /**
   * The words `analizar_palabras` reads, chosen by whether the text holds a
   * space. It computes `Palabras`, written as statements so the method can call it.
   */
  method SepararPalabras(entrada: string) returns (palabras: seq<string>)
    ensures palabras == Palabras(entrada)
  {
    if ' ' in entrada {
      palabras := Split(entrada);
    } else {
      palabras := TokenizarCadenaSinEspacios(entrada);
    }
  }

  /** `analizar_palabras(entrada)`. */
  method AnalizarPalabras(entrada: string) returns (palabrasProcesadas: seq<Symbol>)
    ensures palabrasProcesadas == Analyze(entrada)
  {
    var palabras := SepararPalabras(entrada);
    palabrasProcesadas := [];
    for k := 0 to |palabras|
      invariant palabrasProcesadas == ClassifyAll(palabras[..k])
    {
      var palabra := palabras[k];
      var simbolos;
      if |palabra| > 1 && palabra[|palabra| - 1] == ';' {
        simbolos := [ClassifyBase(palabra[..|palabra| - 1]), PuntoComa];
      } else {
        simbolos := [ClassifyBase(palabra)];
      }
      assert simbolos == ClassifyWord(palabra);
      assert palabras[..k + 1][..k] == palabras[..k];
      palabrasProcesadas := palabrasProcesadas + simbolos;
    }
    assert palabras[..|palabras|] == palabras;
  }
}
