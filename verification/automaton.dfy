/**
 * The nondeterministic automaton of `AutomataReconocedor` and the frontier
 * simulation of `procesar_cadena`.
 */
module Automaton {
  import opened Wrappers
  import opened Lexicon
  import opened Classifier
  import opened Words

  /** The declared states; `Q0` is initial and `Q2` the only final one. */
  datatype State =
    | Q0 | Q1 | Q2 | Q3 | Q4 | Q5 | Q6 | Q7 | Q8 | Q9 | Q10 | Q11 | Q12 | Q13 | Q14
    | Q15 | Q16 | Q17 | Q18 | Q19 | Q20 | Q21 | Q28 | Q29 | Q30

  /** The transition table: the set of successors of `q` on `x` (empty where the table has no entry). */
  function Delta(q: State, x: Symbol): set<State> {
    match (q, x)
    case (Q0, Comienza) => {Q1}
    case (Q1, Leer) => {Q3}
    case (Q1, Escribir) => {Q4}
    case (Q1, Asignacion) => {Q28}
    case (Q1, Si) => {Q6}
    case (Q1, Mientras) => {Q10}
    case (Q1, Repetir) => {Q13}
    case (Q1, Termina) => {Q2}
    case (Q3, Variable) => {Q30}
    case (Q30, PuntoComa) => {Q1}
    case (Q4, Expresion) => {Q29}
    case (Q6, Condicion) => {Q7}
    case (Q7, Entonces) => {Q8}
    case (Q8, Instrucciones) => {Q8}
    case (Q8, Sino) => {Q9}
    case (Q8, FinSi) => {Q1}
    case (Q9, Instrucciones) => {Q9}
    case (Q9, FinSi) => {Q1}
    case (Q10, Condicion) => {Q11}
    case (Q11, Hacer) => {Q12}
    case (Q12, Instrucciones) => {Q12}
    case (Q12, FinMientras) => {Q1}
    case (Q13, Instrucciones) => {Q13}
    case (Q13, HastaQue) => {Q14}
    case (Q14, Condicion) => {Q1}
    case (Q8, Mientras) => {Q18}
    case (Q9, Mientras) => {Q18}
    case (Q12, Si) => {Q15}
    case (Q15, Condicion) => {Q16}
    case (Q16, Entonces) => {Q17}
    case (Q17, Instrucciones) => {Q17}
    case (Q17, Sino) => {Q21}
    case (Q17, FinSi) => {Q12}
    case (Q21, Instrucciones) => {Q21}
    case (Q21, FinSi) => {Q12}
    case (Q18, Condicion) => {Q19}
    case (Q19, Hacer) => {Q20}
    case (Q20, Instrucciones) => {Q20}
    case (Q20, FinMientras) => {Q8, Q9}
    case (Q28, PuntoComa) => {Q1}
    case (Q29, PuntoComa) => {Q1}
    case _ => {}
  }

  /**
   * What `Elemento` becomes in front of the frontier `F`: the category of the
   * first state of the fixed priority order that `F` holds; `Elemento`
   * itself when it holds none of them.
   */
  function ResolveElemento(F: set<State>): Symbol {
    if Q3 in F then Variable
    else if Q4 in F then Expresion
    else if Q6 in F then Condicion
    else if Q8 in F then Instrucciones
    else if Q9 in F then Instrucciones
    else if Q10 in F then Condicion
    else if Q12 in F then Instrucciones
    else if Q13 in F then Instrucciones
    else if Q14 in F then Condicion
    else if Q15 in F then Condicion
    else if Q17 in F then Instrucciones
    else if Q21 in F then Instrucciones
    else if Q18 in F then Condicion
    else if Q20 in F then Instrucciones
    else Elemento
  }

  function Resolve(F: set<State>, x: Symbol): Symbol {
    if x == Elemento then ResolveElemento(F) else x
  }

  /** The union of the successor sets of the frontier's states. */
  function Post(F: set<State>, x: Symbol): set<State> {
    set q, p | q in F && p in Delta(q, x) :: p
  }

  /**
   * The frontier after reading `s` from `F`, or `None` when the run is
   * rejected on the way: on `Invalido`, or on a step with no successor.
   */
  function Run(F: set<State>, s: seq<Symbol>): Option<set<State>>
    decreases |s|
  {
    if s == [] then Some(F)
    else if s[0] == Invalido then None
    else
      var next := Post(F, Resolve(F, s[0]));
      if next == {} then None else Run(next, s[1..])
  }

  /** The final frontier meets the final states. */
  predicate Accepts(s: seq<Symbol>) {
    var r := Run({Q0}, s);
    r.Some? && Q2 in r.value
  }

  // ---------------------------------------------------------------------------
  // The two loops of `procesar_cadena`.

  /** The inner loop: the union of the successor sets over the frontier. */
  method Successors(estados: set<State>, palabra: Symbol) returns (nuevos: set<State>)
    ensures nuevos == Post(estados, palabra)
  {
    nuevos := {};
    var pendientes := estados;
    while pendientes != {}
      invariant pendientes <= estados
      invariant nuevos == Post(estados - pendientes, palabra)
      decreases |pendientes|
    {
      var estado :| estado in pendientes;
      PostAdd(estados - pendientes, estado, palabra);
      assert estados - (pendientes - {estado}) == (estados - pendientes) + {estado};
      nuevos := nuevos + Delta(estado, palabra);
      pendientes := pendientes - {estado};
    }
    assert estados - pendientes == estados;
  }

  /** `procesar_cadena(cadena)` without its diagnostic output. */
  method ProcesarCadena(cadena: string) returns (esAceptada: bool)
    ensures esAceptada == Accepts(Analyze(cadena))
  {
    var palabras := AnalizarPalabras(cadena);
    var estadosActuales: set<State> := {Q0};
    for k := 0 to |palabras|
      invariant Run({Q0}, palabras) == Run(estadosActuales, palabras[k..])
    {
      assert palabras[k..][1..] == palabras[k + 1..];
      var palabra := palabras[k];
      if palabra == Invalido {
        return false;
      }
      if palabra == Elemento {
        palabra := ResolveElemento(estadosActuales);
      }
      var nuevosEstados := Successors(estadosActuales, palabra);
      if nuevosEstados == {} {
        return false;
      }
      estadosActuales := nuevosEstados;
    }
    esAceptada := Q2 in estadosActuales;
  }

  // ---------------------------------------------------------------------------
  // Facts about `Post` and `Run`.

  /** The four categories a placeholder can take. */
  predicate IsCategory(x: Symbol) {
    x == Variable || x == Expresion || x == Condicion || x == Instrucciones
  }

  /** No state of the table moves on an unresolved placeholder. */
  lemma NoElementoMove(F: set<State>)
    ensures Post(F, Elemento) == {}
  {
    forall q | q in F
      ensures Delta(q, Elemento) == {}
    {
    }
  }

  /** A state that reads category `c` has a move on it; a state that reads none moves on no category. */
  lemma CategoryMove(q: State, c: Symbol)
    requires IsCategory(c)
    ensures Category(q) == c ==> Delta(q, c) != {}
    ensures Category(q) == Elemento ==> Delta(q, c) == {}
  {
  }

  /** The frontier state whose category the priority order picks. */
  lemma ResolvedFrom(F: set<State>) returns (q: State)
    requires ResolveElemento(F) != Elemento
    ensures q in F && Category(q) == ResolveElemento(F)
  {
    if Q3 in F {
      q := Q3;
    } else if Q4 in F {
      q := Q4;
    } else if Q6 in F {
      q := Q6;
    } else if Q8 in F {
      q := Q8;
    } else if Q9 in F {
      q := Q9;
    } else if Q10 in F {
      q := Q10;
    } else if Q12 in F {
      q := Q12;
    } else if Q13 in F {
      q := Q13;
    } else if Q14 in F {
      q := Q14;
    } else if Q15 in F {
      q := Q15;
    } else if Q17 in F {
      q := Q17;
    } else if Q21 in F {
      q := Q21;
    } else if Q18 in F {
      q := Q18;
    } else if Q20 in F {
      q := Q20;
    } else {
      assert false;
    }
  }

  /** When nothing resolves the placeholder, no frontier state reads a category. */
  lemma UnresolvedState(F: set<State>, q: State)
    requires q in F && ResolveElemento(F) == Elemento
    ensures Category(q) == Elemento
  {
  }

  /**
   * The priority order resolves a placeholder exactly when some frontier
   * state can read one of the four categories, and then to a category that
   * some frontier state reads.
   */
  lemma ResolveElementoExact(F: set<State>)
    ensures ResolveElemento(F) != Elemento ==> IsCategory(ResolveElemento(F)) && Post(F, ResolveElemento(F)) != {}
    ensures ResolveElemento(F) == Elemento <==> forall c :: IsCategory(c) ==> Post(F, c) == {}
  {
    var x := ResolveElemento(F);
    if x != Elemento {
      var q := ResolvedFrom(F);
      CategoryMove(q, x);
      var p :| p in Delta(q, x);
      assert p in Post(F, x);
    } else {
      forall c | IsCategory(c)
        ensures Post(F, c) == {}
      {
        forall q | q in F
          ensures Delta(q, c) == {}
        {
          UnresolvedState(F, q);
          CategoryMove(q, c);
        }
      }
    }
  }

  /** A placeholder that no frontier state resolves rejects the text. */
  lemma UnresolvedRejects(F: set<State>, s: seq<Symbol>)
    requires s != [] && s[0] == Elemento && ResolveElemento(F) == Elemento
    ensures Run(F, s).None?
  {
    NoElementoMove(F);
  }

  /** A placeholder right after `comienza` has no category and rejects the text. */
  lemma PlaceholderAfterStart(s: seq<Symbol>)
    requires s == [Comienza, Elemento, Termina]
    ensures !Accepts(s)
  {
    PostSingleton(Q0, Comienza);
    UnresolvedRejects({Q1}, s[1..]);
  }

  lemma PostAdd(F: set<State>, q: State, x: Symbol)
    ensures Post(F + {q}, x) == Post(F, x) + Delta(q, x)
  {
  }

  lemma PostSingleton(q: State, x: Symbol)
    ensures Post({q}, x) == Delta(q, x)
  {
    PostAdd({}, q, x);
    assert {} + {q} == {q};
  }

  /** An invalid word anywhere rejects, whatever the frontier. */
  lemma {:induction false} InvalidRejects(F: set<State>, s: seq<Symbol>)
    requires Invalido in s
    ensures Run(F, s).None?
    decreases |s|
  {
    if s[0] != Invalido {
      var next := Post(F, Resolve(F, s[0]));
      if next != {} {
        assert Invalido in s[1..];
        InvalidRejects(next, s[1..]);
      }
    }
  }

  /** A run that gets through at least one symbol ends on a non-empty frontier. */
  lemma {:induction false} RunNonEmpty(F: set<State>, s: seq<Symbol>)
    requires Run(F, s).Some? && (s != [] || F != {})
    ensures Run(F, s).value != {}
    decreases |s|
  {
    if s != [] {
      var next := Post(F, Resolve(F, s[0]));
      RunNonEmpty(next, s[1..]);
    }
  }

  lemma {:induction false} RunAppend(F: set<State>, s: seq<Symbol>, t: seq<Symbol>)
    ensures Run(F, s + t) == match Run(F, s) case None => None case Some(G) => Run(G, t)
    decreases |s|
  {
    if s == [] {
      assert s + t == t;
    } else {
      assert (s + t)[0] == s[0];
      assert (s + t)[1..] == s[1..] + t;
      var next := Post(F, Resolve(F, s[0]));
      if s[0] != Invalido && next != {} {
        RunAppend(next, s[1..], t);
      }
    }
  }

  // ---------------------------------------------------------------------------
  // The shape of the table and of the frontiers.

  /** `Q0` is left only on `Comienza`, and `Q2` has no way out. */
  lemma TableEnds(x: Symbol)
    ensures Delta(Q0, x) != {} <==> x == Comienza
    ensures Delta(Q2, x) == {}
  {
  }

  /** Every entry has at most one target, except `(Q20, FinMientras)` with `{Q8, Q9}`. */
  lemma DeltaShape(q: State, x: Symbol)
    ensures Delta(q, x) == {} || Singleton(Delta(q, x)) || (q == Q20 && x == FinMientras)
    ensures q == Q20 && x == FinMientras ==> Delta(q, x) == {Q8, Q9}
  {
    var d := Delta(q, x);
    if d != {} && !(q == Q20 && x == FinMientras) {
      var p :| p in d;
      assert d <= {p};
    }
  }

  /** Exactly one state. */
  predicate Singleton(F: set<State>) {
    exists q :: q in F && F <= {q}
  }

  /** Every frontier the simulation reaches from `{Q0}` has one of these two shapes. */
  predicate Reachable(F: set<State>) {
    Singleton(F) || F == {Q8, Q9}
  }

  lemma SingletonOf(q: State)
    ensures Singleton({q})
  {
    assert q in {q} && {q} <= {q};
  }

  lemma PostPair(y: Symbol)
    ensures Post({Q8, Q9}, y) == Delta(Q8, y) + Delta(Q9, y)
  {
    PostAdd({Q8}, Q9, y);
    PostSingleton(Q8, y);
    assert {Q8} + {Q9} == {Q8, Q9};
  }

  /** From `{Q8, Q9}` every symbol leads to `{Q8, Q9}`, a single state, or nowhere. */
  lemma PairStep(y: Symbol)
    ensures var next := Delta(Q8, y) + Delta(Q9, y); next == {} || Reachable(next)
  {
    match y {
      case Instrucciones =>
      case Sino =>
        assert Delta(Q8, y) + Delta(Q9, y) == {Q9};
        SingletonOf(Q9);
      case FinSi =>
        assert Delta(Q8, y) + Delta(Q9, y) == {Q1};
        SingletonOf(Q1);
      case Mientras =>
        assert Delta(Q8, y) + Delta(Q9, y) == {Q18};
        SingletonOf(Q18);
      case _ =>
        assert Delta(Q8, y) == {} && Delta(Q9, y) == {};
    }
  }

  lemma {:induction false} StepReachable(F: set<State>, x: Symbol)
    requires Reachable(F)
    ensures var next := Post(F, Resolve(F, x)); next == {} || Reachable(next)
  {
    var y := Resolve(F, x);
    if Singleton(F) {
      var q :| q in F && F <= {q};
      assert F == {q};
      PostSingleton(q, y);
      DeltaShape(q, y);
    } else {
      PostPair(y);
      PairStep(y);
    }
  }

  /** The frontier after any accepted prefix is a single state or `{Q8, Q9}`. */
  lemma {:induction false} RunReachable(F: set<State>, s: seq<Symbol>)
    requires Reachable(F) && Run(F, s).Some?
    ensures Reachable(Run(F, s).value)
    decreases |s|
  {
    if s != [] {
      StepReachable(F, s[0]);
      RunReachable(Post(F, Resolve(F, s[0])), s[1..]);
    }
  }

  lemma ReachableFromStart(s: seq<Symbol>)
    requires Run({Q0}, s).Some?
    ensures Reachable(Run({Q0}, s).value)
  {
    assert {Q0} <= {Q0};
    RunReachable({Q0}, s);
  }

  // ---------------------------------------------------------------------------
  // First-match resolution loses nothing on the frontiers that occur.

  /** The placeholder each state expects (`Elemento` where it expects none). */
  function Category(q: State): Symbol {
    match q
    case Q3 => Variable
    case Q4 => Expresion
    case Q6 | Q10 | Q14 | Q15 | Q18 => Condicion
    case Q8 | Q9 | Q12 | Q13 | Q17 | Q20 | Q21 => Instrucciones
    case _ => Elemento
  }

  /** The symbol state `q` reads when the input holds `x`. */
  function Expected(q: State, x: Symbol): Symbol {
    if x == Elemento then Category(q) else x
  }

  /** Each state reads the placeholder as its own category. */
  function PostPerState(F: set<State>, x: Symbol): set<State> {
    set q, p | q in F && p in Delta(q, Expected(q, x)) :: p
  }

  function RunPerState(F: set<State>, s: seq<Symbol>): Option<set<State>>
    decreases |s|
  {
    if s == [] then Some(F)
    else if s[0] == Invalido then None
    else
      var next := PostPerState(F, s[0]);
      if next == {} then None else RunPerState(next, s[1..])
  }

  /** On a single state, the priority order picks that state's own category. */
  lemma ResolveSingleton(q: State)
    ensures ResolveElemento({q}) == Category(q)
  {
  }

  lemma PostPerStateAdd(F: set<State>, q: State, x: Symbol)
    ensures PostPerState(F + {q}, x) == PostPerState(F, x) + Delta(q, Expected(q, x))
  {
  }

  lemma StepPerStateSingle(q: State, x: Symbol)
    ensures Post({q}, Resolve({q}, x)) == PostPerState({q}, x)
  {
    PostSingleton(q, Resolve({q}, x));
    PostPerStateAdd({}, q, x);
    assert {} + {q} == {q};
    ResolveSingleton(q);
  }

  /** `Q8` and `Q9` share their category, and the priority order picks it. */
  lemma ResolvePair(x: Symbol)
    ensures Resolve({Q8, Q9}, x) == Expected(Q8, x) == Expected(Q9, x)
  {
  }

  lemma PostPerStatePair(x: Symbol)
    ensures PostPerState({Q8, Q9}, x) == Delta(Q8, Expected(Q8, x)) + Delta(Q9, Expected(Q9, x))
  {
    PostPerStateAdd({Q8}, Q9, x);
    PostPerStateAdd({}, Q8, x);
    assert {} + {Q8} == {Q8};
    assert {Q8} + {Q9} == {Q8, Q9};
  }

  lemma StepPerStatePair(x: Symbol)
    ensures Post({Q8, Q9}, Resolve({Q8, Q9}, x)) == PostPerState({Q8, Q9}, x)
  {
    ResolvePair(x);
    PostPair(Resolve({Q8, Q9}, x));
    PostPerStatePair(x);
  }


  lemma StepPerState(F: set<State>, x: Symbol)
    requires Reachable(F)
    ensures Post(F, Resolve(F, x)) == PostPerState(F, x)
  {
    if Singleton(F) {
      var q :| q in F && F <= {q};
      assert F == {q};
      StepPerStateSingle(q, x);
    } else {
      StepPerStatePair(x);
    }
  }

  /**
   * From the initial state, resolving the placeholder once for the whole
   * frontier gives the same run as letting each state resolve it by its own
   * category.
   */
  lemma {:induction false} RunIsPerState(F: set<State>, s: seq<Symbol>)
    requires Reachable(F)
    ensures Run(F, s) == RunPerState(F, s)
    decreases |s|
  {
    if s != [] && s[0] != Invalido {
      StepPerState(F, s[0]);
      var next := Post(F, Resolve(F, s[0]));
      if next != {} {
        StepReachable(F, s[0]);
        RunIsPerState(next, s[1..]);
      }
    }
  }

  // ---------------------------------------------------------------------------
  // What an accepted symbol list looks like.

  lemma ResolveKeepsKeywords(F: set<State>, x: Symbol)
    ensures Resolve(F, x) == Termina <==> x == Termina
    ensures Resolve(F, x) == Comienza <==> x == Comienza
  {
  }

  /** `Q2` is only entered on `Termina`. */
  lemma IntoFinal(F: set<State>, y: Symbol)
    requires Q2 in Post(F, y)
    ensures y == Termina
  {
    var q :| q in F && Q2 in Delta(q, y);
  }

  /** After `Termina` the frontier is `{Q2}` or empty. */
  lemma AfterTermina(F: set<State>)
    ensures Post(F, Termina) <= {Q2}
  {
  }

  lemma {:induction false} LastIsTermina(F: set<State>, s: seq<Symbol>)
    requires s != [] && Run(F, s).Some? && Q2 in Run(F, s).value
    ensures s[|s| - 1] == Termina
    decreases |s|
  {
    var next := Post(F, Resolve(F, s[0]));
    if |s| == 1 {
      IntoFinal(F, Resolve(F, s[0]));
      ResolveKeepsKeywords(F, s[0]);
    } else {
      LastIsTermina(next, s[1..]);
    }
  }

  /** Nothing may follow `Termina`. */
  lemma {:induction false} NothingAfterTermina(F: set<State>, s: seq<Symbol>, k: nat)
    requires k + 1 < |s| && s[k] == Termina
    ensures Run(F, s).None?
    decreases k
  {
    if s[0] != Invalido {
      var next := Post(F, Resolve(F, s[0]));
      if next != {} {
        if k == 0 {
          AfterTermina(F);
          var after := Post(next, Resolve(next, s[1]));
          assert after == {} by {
            forall p | p in after ensures false {
              var q :| q in next && p in Delta(q, Resolve(next, s[1]));
              TableEnds(Resolve(next, s[1]));
            }
          }
        } else {
          NothingAfterTermina(next, s[1..], k - 1);
        }
      }
    }
  }

  /** An accepted list starts with `Comienza`, ends with `Termina`, and holds no other `Termina`. */
  lemma AcceptedShape(s: seq<Symbol>)
    requires Accepts(s)
    ensures |s| >= 2 && s[0] == Comienza && s[|s| - 1] == Termina
    ensures forall k :: 0 <= k < |s| - 1 ==> s[k] != Termina
  {
    assert s != [];
    PostSingleton(Q0, Resolve({Q0}, s[0]));
    TableEnds(Resolve({Q0}, s[0]));
    ResolveKeepsKeywords({Q0}, s[0]);
    LastIsTermina({Q0}, s);
    forall k | 0 <= k < |s| - 1 ensures s[k] != Termina {
      if s[k] == Termina {
        NothingAfterTermina({Q0}, s, k);
      }
    }
  }

  // ---------------------------------------------------------------------------
  // Concrete runs. Each list is a parameter fixed by `requires`: with the
  // literal as the argument the verifier unfolds `Run` on it and runs out of
  // resource.

  lemma EmptyRejected()
    ensures !Accepts([])
  {
  }

  /** `comienza termina` is accepted (list as a parameter, see above). */
  lemma SmallestProgram(s: seq<Symbol>)
    requires s == [Comienza, Termina]
    ensures Accepts(s)
  {
    PathRun([Q0, Q1, Q2], s);
  }

  /** The symbols of `comienza x=<e>; termina` are accepted. */
  lemma AssignmentProgram(s: seq<Symbol>)
    requires s == [Comienza, Asignacion, PuntoComa, Termina]
    ensures Accepts(s)
  {
    PathRun([Q0, Q1, Q28, Q1, Q2], s);
  }

  /** With spaces, `comienza x=<e>; termina` is accepted for every bare name `x` and alphanumeric `e`. */
  lemma SpacedAssignmentAccepted(t: string, x: string, e: string)
    requires EsVariable(x) && IsAlnum(e)
    requires t == "comienza " + x + "=<" + e + ">; termina"
    ensures Accepts(Analyze(t))
  {
    SpacedAssignmentSymbols(t, x, e);
    AssignmentProgram(Analyze(t));
  }

  /** Without spaces, any text holding `=` is rejected: the dense path reads no assignment. */
  lemma DenseEqualsRejected(entrada: string)
    requires ' ' !in entrada && '=' in entrada
    ensures !Accepts(Analyze(entrada))
  {
    DenseNoAssignment(entrada);
    InvalidRejects({Q0}, Analyze(entrada));
  }

  /**
   * The same assignment program read two ways: with spaces it is accepted,
   * written without spaces it is rejected.
   */
  lemma AssignmentReadsTwoWays(spaced: string, dense: string, x: string, e: string)
    requires EsVariable(x) && IsAlnum(e)
    requires spaced == "comienza " + x + "=<" + e + ">; termina"
    requires dense == "comienza" + x + "=<" + e + ">;termina"
    ensures Accepts(Analyze(spaced)) && !Accepts(Analyze(dense))
  {
    SpacedAssignmentAccepted(spaced, x, e);
    DenseAssignmentText(dense, x, e);
    DenseEqualsRejected(dense);
  }

  /** One step of the run, on a single state. */
  lemma RunStep(q: State, x: Symbol, r: State, s: seq<Symbol>)
    requires x != Invalido && Delta(q, Expected(q, x)) == {r}
    ensures Run({q}, [x] + s) == Run({r}, s)
  {
    ResolveSingleton(q);
    PostSingleton(q, Resolve({q}, x));
    assert ([x] + s)[1..] == s;
  }

  /** `qs` is the path of single states that the run over `s` walks through. */
  predicate Path(qs: seq<State>, s: seq<Symbol>) {
    |qs| == |s| + 1 &&
    forall i :: 0 <= i < |s| ==> s[i] != Invalido && Delta(qs[i], Expected(qs[i], s[i])) == {qs[i + 1]}
  }

  lemma {:induction false} PathRun(qs: seq<State>, s: seq<Symbol>)
    requires Path(qs, s)
    ensures Run({qs[0]}, s) == Some({qs[|s|]})
    decreases |s|
  {
    if s != [] {
      RunStep(qs[0], s[0], qs[1], s[1..]);
      assert [s[0]] + s[1..] == s;
      assert Path(qs[1..], s[1..]);
      PathRun(qs[1..], s[1..]);
    }
  }

  // Concrete runs. Each lemma takes the symbol list as a parameter fixed by
  // its precondition, and longer runs are put together with `RunAppend`.

  /** `comienza escribir <resultado>; termina` is accepted (list as a parameter, see above). */
  lemma WriteProgram(s: seq<Symbol>)
    requires s == [Comienza, Escribir, Elemento, PuntoComa, Termina]
    ensures Accepts(s)
  {
    PathRun([Q0, Q1, Q4, Q29, Q1, Q2], s);
  }

  /** `comienza si <condicion> entonces`: the frontier is `{Q8}`. */
  lemma EnterThen(s: seq<Symbol>)
    requires s == [Comienza, Si, Elemento, Entonces]
    ensures Run({Q0}, s) == Some({Q8})
  {
    PathRun([Q0, Q1, Q6, Q7, Q8], s);
  }

  /** `<accion> finsi termina` from `Q8`: the frontier is `{Q2}`. */
  lemma CloseThen(s: seq<Symbol>)
    requires s == [Elemento, FinSi, Termina]
    ensures Run({Q8}, s) == Some({Q2})
  {
    PathRun([Q8, Q8, Q1, Q2], s);
  }

  /** `comienza si <condicion1> entonces <accion1> finsi termina` is accepted (list as a parameter, see above). */
  lemma IfProgram(s: seq<Symbol>)
    requires s == [Comienza, Si, Elemento, Entonces, Elemento, FinSi, Termina]
    ensures Accepts(s)
  {
    var a, b := s[..4], s[4..];
    EnterThen(a);
    CloseThen(b);
    RunAppend({Q0}, a, b);
    assert a + b == s;
  }

  /** `mientras <cond2> hacer <inst>` from `Q8`: the frontier is `{Q20}`. */
  lemma EnterNestedLoop(s: seq<Symbol>)
    requires s == [Mientras, Elemento, Hacer, Elemento]
    ensures Run({Q8}, s) == Some({Q20})
  {
    PathRun([Q8, Q18, Q19, Q20, Q20], s);
  }

  /** Leaving the nested loop: `finmientras` from `Q20`, then `finsi` from `{Q8, Q9}`. */
  lemma LeaveNestedLoop(s: seq<Symbol>)
    requires s == [FinMientras, FinSi]
    ensures Run({Q20}, s) == Some({Q1})
  {
    var t := s[1..];
    assert t == [FinSi];
    PostSingleton(Q20, FinMientras);
    assert Run({Q20}, s) == Run({Q8, Q9}, t);
    PostPair(FinSi);
    assert Delta(Q8, FinSi) + Delta(Q9, FinSi) == {Q1};
    assert Run({Q8, Q9}, t) == Run({Q1}, t[1..]);
  }

  /** `comienza si <c> entonces mientras <c2> hacer <i>`: the frontier is `{Q20}`. */
  lemma ThenNestedLoop(s: seq<Symbol>)
    requires s == [Comienza, Si, Elemento, Entonces, Mientras, Elemento, Hacer, Elemento]
    ensures Run({Q0}, s) == Some({Q20})
  {
    var a, b := s[..4], s[4..];
    EnterThen(a);
    EnterNestedLoop(b);
    RunAppend({Q0}, a, b);
    assert a + b == s;
  }

  /** `finmientras finsi termina` from `Q20`: the frontier is `{Q2}`. */
  lemma CloseNestedLoop(s: seq<Symbol>)
    requires s == [FinMientras, FinSi, Termina]
    ensures Run({Q20}, s) == Some({Q2})
  {
    var a, b := s[..2], s[2..];
    LeaveNestedLoop(a);
    PathRun([Q1, Q2], b);
    RunAppend({Q20}, a, b);
    assert a + b == s;
  }

  /**
   * `comienza si <condicion> entonces mientras <cond2> hacer <inst>
   * finmientras finsi termina`: the nested loop returns to `{Q8, Q9}`.
   * The list is a parameter, see above.
   */
  lemma NestedProgram(s: seq<Symbol>)
    requires s == [Comienza, Si, Elemento, Entonces, Mientras, Elemento, Hacer, Elemento,
                   FinMientras, FinSi, Termina]
    ensures Accepts(s)
  {
    var a, b := s[..8], s[8..];
    ThenNestedLoop(a);
    CloseNestedLoop(b);
    RunAppend({Q0}, a, b);
    assert a + b == s;
  }

  /** `comienza termina leer <x>`: nothing may follow `termina` (list as a parameter, see above). */
  lemma TrailingWordRejected(s: seq<Symbol>)
    requires s == [Comienza, Termina, Leer, Elemento]
    ensures !Accepts(s)
  {
    NothingAfterTermina({Q0}, s, 1);
  }
}
