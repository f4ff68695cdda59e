/**
 * `dividir_pascal_case`: split a run of concatenated keyword spellings
 * ("ComienzaSi") into the spellings it is made of, preferring the split with
 * the most words and, among those, the first one the backtracking search
 * reaches.
 */
module PascalSplit {
  import opened Wrappers
  import opened Lexicon

  function Concat(ws: seq<string>): (r: string)
    ensures ws == [] ==> r == []
  {
    if ws == [] then [] else ws[0] + Concat(ws[1..])
  }

  predicate IsPrefix(w: string, t: string) {
    |w| <= |t| && t[..|w|] == w
  }

  /** `d` spells out `t` with lexicon keys other than ";". */
  predicate IsDecomposition(d: seq<string>, t: string) {
    (forall k :: 0 <= k < |d| ==> IsSpelling(d[k])) && Concat(d) == t
  }

  function Prepend(w: string, ds: seq<seq<string>>): (r: seq<seq<string>>)
    ensures |r| == |ds| && forall i :: 0 <= i < |ds| ==> r[i] == [w] + ds[i]
  {
    seq(|ds|, i requires 0 <= i < |ds| => [w] + ds[i])
  }

  /**
   * Every complete decomposition of `t`, in the order the depth-first search
   * `buscar_division` records them: spellings tried in `Candidates` order,
   * each followed by all decompositions of what remains.
   */
  ghost function AllSplits(t: string): seq<seq<string>>
    decreases |t|, |Candidates| + 1
  {
    if t == [] then [[]] else AllSplitsUpTo(t, |Candidates|)
  }

  /** The decompositions found while trying the first `n` spellings. */
  ghost function AllSplitsUpTo(t: string, n: nat): seq<seq<string>>
    requires t != [] && n <= |Candidates|
    decreases |t|, n
  {
    if n == 0 then []
    else
      var w := Candidates[n - 1];
      CandidateLength(n - 1);
      AllSplitsUpTo(t, n - 1) + (if IsPrefix(w, t) then Prepend(w, AllSplits(t[|w|..])) else [])
  }

  /** The leftmost of the longest: `b` replaces `a` only when strictly longer. */
  function Better(a: Option<seq<string>>, b: Option<seq<string>>): Option<seq<string>> {
    if b.Some? && (a.None? || |b.value| > |a.value|) then b else a
  }

  /** `max(ds, key=len)`: the first element of greatest length. */
  function FirstLongest(ds: seq<seq<string>>): (r: Option<seq<string>>)
    ensures r.None? <==> ds == []
    ensures r.Some? ==> exists i :: 0 <= i < |ds| && r.value == ds[i] &&
                                    forall j :: 0 <= j < i ==> |ds[j]| < |ds[i]|
    ensures r.Some? ==> forall j :: 0 <= j < |ds| ==> |ds[j]| <= |r.value|
  {
    if ds == [] then None
    else Better(FirstLongest(ds[..|ds| - 1]), Some(ds[|ds| - 1]))
  }

  function Extend(w: string, o: Option<seq<string>>): Option<seq<string>> {
    match o
    case None => None
    case Some(d) => Some([w] + d)
  }

  /** The best decomposition of `t`, kept as the search goes instead of listing them all. */
  function BestSplit(t: string): Option<seq<string>>
    decreases |t|, |Candidates| + 1
  {
    if t == [] then Some([]) else BestUpTo(t, |Candidates|)
  }

  function BestUpTo(t: string, n: nat): Option<seq<string>>
    requires t != [] && n <= |Candidates|
    decreases |t|, n
  {
    if n == 0 then None
    else
      var w := Candidates[n - 1];
      CandidateLength(n - 1);
      var prev := BestUpTo(t, n - 1);
      if IsPrefix(w, t) then Better(prev, Extend(w, BestSplit(t[|w|..]))) else prev
  }

  /** The value `dividir_pascal_case` returns: `[]` for empty text or when no split exists. */
  function Division(texto: string): seq<string> {
    if texto == [] then []
    else match BestSplit(texto)
      case None => []
      case Some(d) => d
  }

  /** One search step, `buscar_division(texto_restante, ...)`, returning the best split it finds. */
  method BuscarDivision(rest: string) returns (best: Option<seq<string>>)
    ensures best == BestSplit(rest)
    decreases |rest|
  {
    if rest == [] {
      return Some([]);
    }
    best := None;
    var n := 0;
    while n < |Candidates|
      invariant n <= |Candidates|
      invariant best == BestUpTo(rest, n)
    {
      var w := Candidates[n];
      if |w| <= |rest| && rest[..|w|] == w {
        CandidateLength(n);
        var sub := BuscarDivision(rest[|w|..]);
        if sub.Some? && (best.None? || 1 + |sub.value| > |best.value|) {
          best := Some([w] + sub.value);
        }
      }
      n := n + 1;
    }
  }

  /** `dividir_pascal_case(texto)`. */
  method DividirPascalCase(texto: string) returns (r: seq<string>)
    ensures r == Division(texto)
  {
    if texto == [] {
      return [];
    }
    var best := BuscarDivision(texto);
    r := if best.Some? then best.value else [];
  }

  // ---------------------------------------------------------------------------
  // The listing is exactly the set of decompositions.

  lemma {:induction false} ConcatCons(w: string, d: seq<string>, t: string)
    ensures Concat([w] + d) == t <==> IsPrefix(w, t) && Concat(d) == t[|w|..]
  {
    assert ([w] + d)[1..] == d;
  }

  /** `AllSplits(t)` lists every decomposition of `t` and nothing else. */
  lemma {:induction false} AllSplitsExact(t: string, d: seq<string>)
    ensures d in AllSplits(t) <==> IsDecomposition(d, t)
    decreases |t|, |Candidates| + 1
  {
    if t == [] {
      if IsDecomposition(d, t) && d != [] {
        CandidateLetters(IndexOfCandidate(d[0]));
      }
    } else {
      AllSplitsUpToExact(t, |Candidates|, d);
      if IsDecomposition(d, t) {
        assert d != [];
        assert SpelledBefore(d[0], |Candidates|);
      }
    }
  }

  ghost function IndexOfCandidate(w: string): (i: nat)
    requires IsSpelling(w)
    ensures i < |Candidates| && Candidates[i] == w
  {
    var i :| 0 <= i < |Candidates| && Candidates[i] == w; i
  }

  /** Membership in `Prepend(w, ds)`: `w` followed by a member of `ds`. */
  lemma PrependMember(w: string, ds: seq<seq<string>>, d: seq<string>)
    ensures d in Prepend(w, ds) <==> d != [] && d[0] == w && d[1..] in ds
  {
    if d in Prepend(w, ds) {
      var i :| 0 <= i < |ds| && Prepend(w, ds)[i] == d;
      assert ([w] + ds[i])[1..] == ds[i];
    }
    if d != [] && d[0] == w && d[1..] in ds {
      var i :| 0 <= i < |ds| && ds[i] == d[1..];
      assert Prepend(w, ds)[i] == [w] + d[1..] == d;
    }
  }

  lemma {:induction false} AllSplitsUpToExact(t: string, n: nat, d: seq<string>)
    requires t != [] && n <= |Candidates|
    ensures d in AllSplitsUpTo(t, n) <==> IsDecomposition(d, t) && SpelledBefore(d[0], n)
    decreases |t|, n
  {
    if n == 0 {
      if IsDecomposition(d, t) { assert d != []; }
    } else {
      var w := Candidates[n - 1];
      CandidateLength(n - 1);
      AllSplitsUpToExact(t, n - 1, d);
      if d != [] {
        SpelledBeforeStep(d[0], n);
      }
      if d != [] && d[0] == w {
        assert [w] + d[1..] == d;
        ConcatCons(w, d[1..], t);
        if IsPrefix(w, t) {
          AllSplitsExact(t[|w|..], d[1..]);
          PrependMember(w, AllSplits(t[|w|..]), d);
        }
      } else if IsPrefix(w, t) {
        PrependMember(w, AllSplits(t[|w|..]), d);
      }
    }
  }

  // ---------------------------------------------------------------------------
  // Keeping the best as you go gives the first longest of the full listing.

  lemma {:induction false} BetterAssoc(a: Option<seq<string>>, b: Option<seq<string>>, c: Option<seq<string>>)
    ensures Better(a, Better(b, c)) == Better(Better(a, b), c)
  {
  }

  lemma {:induction false} FirstLongestAppend(xs: seq<seq<string>>, ys: seq<seq<string>>)
    ensures FirstLongest(xs + ys) == Better(FirstLongest(xs), FirstLongest(ys))
    decreases |ys|
  {
    if ys == [] {
      assert xs + ys == xs;
    } else {
      var ys' := ys[..|ys| - 1];
      assert (xs + ys)[..|xs + ys| - 1] == xs + ys';
      FirstLongestAppend(xs, ys');
      BetterAssoc(FirstLongest(xs), FirstLongest(ys'), Some(ys[|ys| - 1]));
    }
  }

  lemma {:induction false} FirstLongestPrepend(w: string, ds: seq<seq<string>>)
    ensures FirstLongest(Prepend(w, ds)) == Extend(w, FirstLongest(ds))
    decreases |ds|
  {
    if ds != [] {
      var ds' := ds[..|ds| - 1];
      assert Prepend(w, ds)[..|ds| - 1] == Prepend(w, ds');
      FirstLongestPrepend(w, ds');
    }
  }

  /** The tie-break: the best split is the first longest in depth-first order. */
  lemma {:induction false} BestIsFirstLongest(t: string)
    ensures BestSplit(t) == FirstLongest(AllSplits(t))
    decreases |t|, |Candidates| + 1
  {
    if t == [] {
      assert AllSplits(t)[..0] == [];
    } else {
      BestUpToIsFirstLongest(t, |Candidates|);
    }
  }

  /** One more spelling tried: keeping the better of the two agrees with the longer listing. */
  lemma BestStep(before: seq<seq<string>>, w: string, tail: seq<seq<string>>)
    ensures Better(FirstLongest(before), Extend(w, FirstLongest(tail))) ==
            FirstLongest(before + Prepend(w, tail))
  {
    FirstLongestPrepend(w, tail);
    FirstLongestAppend(before, Prepend(w, tail));
  }

  lemma {:induction false} BestUpToIsFirstLongest(t: string, n: nat)
    requires t != [] && n <= |Candidates|
    ensures BestUpTo(t, n) == FirstLongest(AllSplitsUpTo(t, n))
    decreases |t|, n
  {
    if n > 0 {
      var w := Candidates[n - 1];
      CandidateLength(n - 1);
      BestUpToIsFirstLongest(t, n - 1);
      if IsPrefix(w, t) {
        BestIsFirstLongest(t[|w|..]);
        BestUpToPrefixStep(t, n);
      } else {
        var before := AllSplitsUpTo(t, n - 1);
        assert AllSplitsUpTo(t, n) == before + [] == before;
      }
    }
  }

  /** The step of `BestUpToIsFirstLongest` where the `n`-th spelling starts the text. */
  lemma BestUpToPrefixStep(t: string, n: nat)
    requires t != [] && 0 < n <= |Candidates| && IsPrefix(Candidates[n - 1], t)
    requires BestUpTo(t, n - 1) == FirstLongest(AllSplitsUpTo(t, n - 1))
    requires var w := Candidates[n - 1]; |w| > 0 && BestSplit(t[|w|..]) == FirstLongest(AllSplits(t[|w|..]))
    ensures BestUpTo(t, n) == FirstLongest(AllSplitsUpTo(t, n))
  {
    var w := Candidates[n - 1];
    var rest := t[|w|..];
    var before := AllSplitsUpTo(t, n - 1);
    assert BestUpTo(t, n) == Better(BestUpTo(t, n - 1), Extend(w, BestSplit(rest)));
    assert AllSplitsUpTo(t, n) == before + Prepend(w, AllSplits(rest));
    BestStep(before, w, AllSplits(rest));
  }


  // ---------------------------------------------------------------------------
  // What `dividir_pascal_case` promises its caller.

  /** The result is the first longest of all splits, in the order the depth-first search finds them. */
  lemma DivisionIsFirstLongest(texto: string)
    requires texto != []
    ensures Division(texto) == match FirstLongest(AllSplits(texto)) case None => [] case Some(d) => d
  {
    BestIsFirstLongest(texto);
  }

  /** A non-empty result spells out the input exactly, with lexicon keys other than ";". */
  lemma DivisionSound(texto: string)
    requires Division(texto) != []
    ensures IsDecomposition(Division(texto), texto)
  {
    BestIsFirstLongest(texto);
    var all := AllSplits(texto);
    var i :| 0 <= i < |all| && Division(texto) == all[i];
    AllSplitsExact(texto, all[i]);
  }

  /** No decomposition has more words than the result; none exists when the result is `[]`. */
  lemma DivisionMaximal(texto: string, d: seq<string>)
    requires texto != [] && IsDecomposition(d, texto)
    ensures Division(texto) != [] && |d| <= |Division(texto)|
  {
    AllSplitsExact(texto, d);
    BestIsFirstLongest(texto);
    var all := AllSplits(texto);
    var j :| 0 <= j < |all| && all[j] == d;
    assert d != [];
  }
}
