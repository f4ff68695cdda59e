/**
 * The boolean tests that decide what shape a word has: `es_variable`,
 * `es_expresion`, `es_asignacion`, `es_condicion`, `es_instrucciones`.
 */
module Words {
  import opened Lexicon

  /** `str.isalnum` on ASCII text: non-empty, letters and digits only. */
  predicate IsAlnum(s: string) {
    |s| > 0 && forall k :: 0 <= k < |s| ==> IsAlnumChar(s[k])
  }

  predicate IsAlnumChar(c: char) {
    'a' <= c <= 'z' || 'A' <= c <= 'Z' || '0' <= c <= '9'
  }

  /** `startswith('<') and endswith('>')`. */
  predicate Bracketed(s: string) {
    |s| > 0 && s[0] == '<' && s[|s| - 1] == '>'
  }

  /** What lies between the angle brackets, `s[1:-1]`. */
  function Interior(s: string): (r: string)
    requires Bracketed(s)
    ensures |r| + 2 == |s| && s == ['<'] + r + ['>']
  {
    s[1..|s| - 1]
  }

  /** A bare name: alphanumeric and not a lexicon spelling. */
  predicate EsVariable(w: string) {
    IsAlnum(w) && !IsKey(w)
  }

  /** A bracketed alphanumeric text, or else a bare name. */
  predicate EsExpresion(w: string) {
    if Bracketed(w) then IsAlnum(Interior(w))
    else IsAlnum(w) && !IsKey(w)
  }

  /** A bracketed alphanumeric text. */
  predicate EsCondicion(w: string) {
    Bracketed(w) && IsAlnum(Interior(w))
  }

  /** A bracketed alphanumeric text (the same test as `EsCondicion`). */
  predicate EsInstrucciones(w: string) {
    Bracketed(w) && IsAlnum(Interior(w))
  }

  /** Index of the first occurrence of `c` in `s`. */
  function IndexOf(s: string, c: char): (r: nat)
    requires c in s
    ensures r < |s| && s[r] == c
    ensures forall k :: 0 <= k < r ==> s[k] != c
  {
    if s[0] == c then 0 else 1 + IndexOf(s[1..], c)
  }

  /** The right-hand side of an assignment: bracketed alphanumeric, or a bare name. */
  predicate AssignedValue(e: string) {
    if Bracketed(e) then IsAlnum(Interior(e))
    else IsAlnum(e) && !IsKey(e)
  }

  /**
   * `variable=expresion`, split at the first `=`: a bare name on the left,
   * a bracketed alphanumeric text or a bare name on the right.
   */
  predicate EsAsignacion(w: string) {
    '=' in w &&
    var p := IndexOf(w, '=');
    EsVariable(w[..p]) && AssignedValue(w[p + 1..])
  }

  /** No lexicon spelling contains a bracket or an `=`. */
  lemma KeyShape(w: string)
    requires IsKey(w)
    ensures forall k :: 0 <= k < |w| ==> w[k] != '<' && w[k] != '=' && w[k] != '>'
    ensures w == ";" || IsAlnum(w)
  {
    if w != ";" {
      var i := KeyIndex(w);
      CandidateLength(i);
      CandidateLetters(i);
    }
  }

  /** The right-hand side is a condition-shaped text or a bare name, and holds no `=`. */
  lemma AssignedValueShape(e: string)
    ensures AssignedValue(e) <==> EsCondicion(e) || EsVariable(e)
    ensures AssignedValue(e) ==> forall k :: 0 <= k < |e| ==> e[k] != '='
  {
    if Bracketed(e) && IsAlnum(Interior(e)) {
      forall k | 0 < k < |e| - 1 ensures e[k] != '=' {
        assert e[k] == Interior(e)[k - 1];
      }
    }
  }

  /** With an alphanumeric text before it, the `=` at `p` is the first one. */
  lemma FirstEqualsAt(w: string, p: nat)
    requires p < |w| && w[p] == '=' && IsAlnum(w[..p])
    ensures IndexOf(w, '=') == p
  {
    forall k | 0 <= k < p ensures w[k] != '=' {
      assert w[k] == w[..p][k];
    }
  }

  /** An assignment holds no `=` after the first. */
  lemma EqualsUnique(w: string)
    requires EsAsignacion(w)
    ensures forall k :: 0 <= k < |w| && w[k] == '=' ==> k == IndexOf(w, '=')
  {
    var q := IndexOf(w, '=');
    var e := w[q + 1..];
    AssignedValueShape(e);
    forall k | q < k < |w| ensures w[k] != '=' {
      assert w[k] == e[k - q - 1];
    }
  }

  /**
   * An assignment has exactly one `=`, with a bare name before it and a
   * bracketed alphanumeric text or a bare name after it; and conversely.
   */
  lemma AssignmentShape(w: string, p: nat)
    requires p < |w| && w[p] == '='
    ensures EsAsignacion(w) <==>
              EsVariable(w[..p]) && (EsCondicion(w[p + 1..]) || EsVariable(w[p + 1..]))
    ensures EsAsignacion(w) ==> forall k :: 0 <= k < |w| && w[k] == '=' ==> k == p
  {
    if EsVariable(w[..p]) {
      FirstEqualsAt(w, p);
    }
    if EsAsignacion(w) {
      EqualsUnique(w);
    }
    AssignedValueShape(w[p + 1..]);
  }

  /** The placeholder test of the classifier collapses to `EsExpresion`. */
  lemma ElementTest(w: string)
    ensures EsVariable(w) ==> EsExpresion(w)
    ensures EsCondicion(w) == EsInstrucciones(w)
    ensures (EsVariable(w) || EsExpresion(w) || EsCondicion(w) || EsInstrucciones(w)) == EsExpresion(w)
  {
  }

  /** The word shapes the classifier tells apart never overlap. */
  lemma ShapesDisjoint(w: string)
    ensures IsKey(w) ==> !EsAsignacion(w) && !EsExpresion(w)
    ensures EsAsignacion(w) ==> !EsExpresion(w)
  {
    if IsKey(w) {
      KeyShape(w);
      assert '=' !in w;
    }
    if EsAsignacion(w) {
      var p := IndexOf(w, '=');
      if Bracketed(w) {
        assert Interior(w)[p - 1] == '=';
      } else {
        assert !IsAlnumChar(w[p]);
      }
    }
  }

  /** A word that opens with `<` is never an assignment: the left side must be bare. */
  lemma BracketedLeftSideRejected(w: string)
    requires |w| > 0 && w[0] == '<'
    ensures !EsAsignacion(w)
  {
    if '=' in w {
      var p := IndexOf(w, '=');
      if p > 0 {
        assert w[..p][0] == '<';
      }
    }
  }
}
