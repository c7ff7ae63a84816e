/**
 * The assimilation passes (grammar.py:405-454): a consonant at a morpheme boundary takes on the
 * quality of its neighbour. Each pass changes at most one boundary letter of each morpheme.
 */
module Assimilation {

  import opened Alphabet
  import opened Morphemes

  /** `b` is `a` with at most its last letter replaced, by one of `cs`. */
  predicate LastEdit(a: string, b: string, cs: string) {
    |a| == |b| && DropLast(a) == DropLast(b) && (|a| > 0 ==> b[|a| - 1] == a[|a| - 1] || b[|a| - 1] in cs)
  }

  /** `b` is `a` with at most its first letter replaced, by one of `cs`. */
  predicate FirstEdit(a: string, b: string, cs: string) {
    |a| == |b| && DropFirst(a) == DropFirst(b) && (|a| > 0 ==> b[0] == a[0] || b[0] in cs)
  }

  /** `b` is `a` with at most its first and its last letter replaced by `s`. */
  predicate EndsEdit(a: string, b: string) {
    |a| == |b| &&
    (forall p :: 0 < p < |a| - 1 ==> b[p] == a[p]) &&
    (|a| > 0 ==> (b[0] == a[0] || b[0] == 's') && (b[|a| - 1] == a[|a| - 1] || b[|a| - 1] == 's'))
  }

  /** `text[:-1] + c`. */
  function ReplaceLast(t: string, c: char): (r: string)
    requires t != []
    ensures LastEdit(t, r, [c]) && r[|r| - 1] == c
  {
    DropLast(t) + [c]
  }

  // ---------------------------------------------------------------- assimilate_t

  /** The condition of grammar.py:430-433: a t-infix starting with `t` after d, ṭ, s or ṣ. */
  predicate TAssimilates(m: Morpheme, prev: string) {
    IsTInfix(m.functions) && StartsWith(m.text, "t") && EndsWith(prev, "dṭsṣ")
  }

  /** `assimilate_t` at morpheme `i` (grammar.py:427-434): a t-infix after d ṭ s ṣ takes that letter. */
  function AssimilateTStep(ms: seq<Morpheme>, i: nat): (r: seq<Morpheme>)
    requires i < |ms|
    ensures SameShape(ms, r) && forall x :: 0 <= x < |ms| && x != i ==> r[x] == ms[x]
    ensures FirstEdit(ms[i].text, r[i].text, "dṭsṣ")
    ensures var prev := PrevOvert(ms, i).1;
            r[i] != ms[i] ==> TAssimilates(ms[i], prev) && |r[i].text| > 0 && r[i].text[0] == prev[|prev| - 1]
  {
    var prev := PrevOvert(ms, i).1;
    var t := ms[i].text;
    if TAssimilates(ms[i], prev) then SetText(ms, i, [prev[|prev| - 1]] + t[1..])
    else ms
  }

  /** A t-infix after d ṭ s ṣ does take that letter, and keeps the rest of its text. */
  lemma AssimilationOfT(ms: seq<Morpheme>, i: nat)
    requires i < |ms| && TAssimilates(ms[i], PrevOvert(ms, i).1)
    ensures var prev := PrevOvert(ms, i).1;
            AssimilateTStep(ms, i)[i].text == [prev[|prev| - 1]] + DropFirst(ms[i].text)
  {
  }

  function AssimilateTFrom(ms: seq<Morpheme>, i: nat): (r: seq<Morpheme>)
    ensures SameShape(ms, r)
    ensures forall x :: 0 <= x < |ms| && !IsTInfix(ms[x].functions) ==> r[x] == ms[x]
    decreases |ms| - i
  {
    if i >= |ms| then ms else AssimilateTFrom(AssimilateTStep(ms, i), i + 1)
  }

  /** The loop from `i` on leaves the earlier morphemes alone. */
  lemma {:induction false} AssimilateTKeepsEarlier(ms: seq<Morpheme>, i: nat, x: nat)
    requires x < i && x < |ms|
    ensures AssimilateTFrom(ms, i)[x] == ms[x]
    decreases |ms| - i
  {
    if i < |ms| {
      AssimilateTKeepsEarlier(AssimilateTStep(ms, i), i + 1, x);
    }
  }

  /**
   * The loop from `i` on rewrites every later morpheme by the rule above, reading the previous
   * overt text as the loop leaves it: a letter it changed earlier is seen.
   */
  lemma {:induction false} AssimilateTSequential(ms: seq<Morpheme>, i: nat, x: nat)
    requires i <= x < |ms|
    ensures var r := AssimilateTFrom(ms, i);
            var prev := PrevOvert(r, x).1;
            r[x].text == if TAssimilates(ms[x], prev) then [prev[|prev| - 1]] + DropFirst(ms[x].text) else ms[x].text
    decreases |ms| - i
  {
    var ms1 := AssimilateTStep(ms, i);
    if x == i {
      AssimilateTSeesEarlier(ms, ms1, AssimilateTFrom(ms1, i + 1), i);
    } else {
      AssimilateTSequential(ms1, i + 1, x);
    }
  }

  /** Morpheme `i` and the texts before it are final once the step at `i` is taken. */
  lemma AssimilateTSeesEarlier(ms: seq<Morpheme>, ms1: seq<Morpheme>, r: seq<Morpheme>, i: nat)
    requires i < |ms| && ms1 == AssimilateTStep(ms, i) && r == AssimilateTFrom(ms1, i + 1)
    ensures r[i] == ms1[i] && PrevOvert(r, i) == PrevOvert(ms, i)
  {
    AssimilateTKeepsEarlier(ms1, i + 1, i);
    AssimilateTKeepsPrevOvert(ms1, i + 1, i);
    PrevOvertPrefix(ms1, ms, i);
  }

  /** The previous overt text before `j` is the same after the loop from a later `i`. */
  lemma {:induction false} AssimilateTKeepsPrevOvert(ms: seq<Morpheme>, i: nat, j: nat)
    requires j < i && j <= |ms|
    ensures PrevOvert(AssimilateTFrom(ms, i), j) == PrevOvert(ms, j)
  {
    if j > 0 {
      AssimilateTKeepsEarlier(ms, i, j - 1);
      AssimilateTKeepsPrevOvert(ms, i, j - 1);
    }
  }

  /** The loop changes at most the first letter of a text, to d, ṭ, s or ṣ. */
  lemma AssimilateTFirstEdit(ms: seq<Morpheme>, i: nat, x: nat)
    requires x < |ms|
    ensures FirstEdit(ms[x].text, AssimilateTFrom(ms, i)[x].text, "dṭsṣ")
  {
    if x < i {
      AssimilateTKeepsEarlier(ms, i, x);
    } else {
      AssimilateTSequential(ms, i, x);
    }
  }

  function AssimilateT(ms: seq<Morpheme>): seq<Morpheme> {
    AssimilateTFrom(ms, 0)
  }

  /** Without a t-infix the pass changes nothing. */
  lemma AssimilateTWithoutInfix(ms: seq<Morpheme>)
    requires forall x :: 0 <= x < |ms| ==> !IsTInfix(ms[x].functions)
    ensures AssimilateT(ms) == ms
  {
    var r := AssimilateT(ms);
    assert forall x :: 0 <= x < |ms| ==> r[x] == ms[x];
  }

  // ---------------------------------------------------------------- assimilate_object_š

  /** The condition of grammar.py:439-441: an object suffix starting with `š` after a dental or sibilant. */
  predicate ObjectAssimilates(m: Morpheme, prev: string) {
    HasObject(m.functions) && StartsWith(m.text, "š") && EndsWith(prev, "dtṭsṣzš")
  }

  /**
   * `assimilate_object_š` at morpheme `i` (grammar.py:437-444): an object suffix `š…` after a
   * dental or sibilant becomes `s…`, and so does that preceding letter.
   */
  function AssimilateObjectStep(ms: seq<Morpheme>, i: nat): (r: seq<Morpheme>)
    requires i < |ms|
    ensures SameShape(ms, r)
    ensures forall x :: 0 <= x < |ms| && x != i && x != PrevOvert(ms, i).0 ==> r[x] == ms[x]
    ensures forall x :: 0 <= x < |ms| ==> EndsEdit(ms[x].text, r[x].text)
    ensures r != ms ==> ObjectAssimilates(ms[i], PrevOvert(ms, i).1) && PrevOvert(ms, i).0 >= 0 &&
                        |r[i].text| > 0 && r[i].text[0] == 's' && EndsWith(r[PrevOvert(ms, i).0].text, "s")
  {
    var (j, prev) := PrevOvert(ms, i);
    var t := ms[i].text;
    if ObjectAssimilates(ms[i], prev) then
      var before, after := DropLast(ms[j].text) + "s", "s" + DropFirst(t);
      EndsEditLast(ms[j].text, before);
      EndsEditFirst(t, after);
      ms[j := ms[j].(text := before)][i := ms[i].(text := after)]
    else ms
  }

  /** Replacing the last letter by `s` is an `EndsEdit`. */
  lemma EndsEditLast(a: string, b: string)
    requires a != [] && b == DropLast(a) + "s"
    ensures EndsEdit(a, b) && EndsWith(b, "s")
  {
  }

  /** Replacing the first letter by `s` is an `EndsEdit`. */
  lemma EndsEditFirst(a: string, b: string)
    requires a != [] && b == "s" + DropFirst(a)
    ensures EndsEdit(a, b)
  {
  }

  /** An object `š` after a dental or sibilant does become `s`, and so does the letter before it. */
  lemma AssimilationOfObjectSh(ms: seq<Morpheme>, i: nat)
    requires i < |ms| && ObjectAssimilates(ms[i], PrevOvert(ms, i).1)
    ensures var j := PrevOvert(ms, i).0;
            var r := AssimilateObjectStep(ms, i);
            0 <= j < i && r[i].text == "s" + DropFirst(ms[i].text) && r[j].text == DropLast(ms[j].text) + "s"
  {
  }

  /** No object suffix still starts with `š` right after a dental or sibilant, at `y`. */
  predicate ShCleared(ms: seq<Morpheme>, y: nat)
    requires y < |ms|
  {
    !ObjectAssimilates(ms[y], PrevOvert(ms, y).1)
  }

  /**
   * The loop from morpheme `i` on; if no `tš`-like cluster is left before `i`, none is left
   * anywhere once it is done.
   */
  function AssimilateObjectFrom(ms: seq<Morpheme>, i: nat): (r: seq<Morpheme>)
    ensures SameShape(ms, r)
    ensures forall x :: 0 <= x < |ms| ==> EndsEdit(ms[x].text, r[x].text)
    ensures (forall y :: 0 <= y < i && y < |ms| ==> ShCleared(ms, y)) ==> forall y :: 0 <= y < |ms| ==> ShCleared(r, y)
    decreases |ms| - i
  {
    if i >= |ms| then ms
    else
      var ms1 := AssimilateObjectStep(ms, i);
      var r := AssimilateObjectFrom(ms1, i + 1);
      assert forall x :: 0 <= x < |ms| ==> EndsEdit(ms[x].text, r[x].text) by {
        forall x | 0 <= x < |ms|
          ensures EndsEdit(ms[x].text, r[x].text)
        {
          EndsEditTransitive(ms[x].text, ms1[x].text, r[x].text);
        }
      }
      if forall y :: 0 <= y < i ==> ShCleared(ms, y) then
        ObjectStepClears(ms, i);
        r
      else r
  }

  lemma EndsEditTransitive(a: string, b: string, c: string)
    requires EndsEdit(a, b) && EndsEdit(b, c)
    ensures EndsEdit(a, c)
  {
  }

  /** One step clears morpheme `i` and keeps the earlier ones cleared. */
  lemma ObjectStepClears(ms: seq<Morpheme>, i: nat)
    requires i < |ms| && forall y :: 0 <= y < i ==> ShCleared(ms, y)
    ensures var r := AssimilateObjectStep(ms, i); forall y :: 0 <= y <= i ==> ShCleared(r, y)
  {
    var r := AssimilateObjectStep(ms, i);
    var (j, prev) := PrevOvert(ms, i);
    forall y | 0 <= y <= i
      ensures ShCleared(r, y)
    {
      if y == i {
        if ObjectAssimilates(ms[i], prev) {
          AssimilationOfObjectSh(ms, i);
          assert r[i].text[0] == 's';
        }
      } else if r == ms {
      } else if y < j {
        PrevOvertPrefix(r, ms, y);
        assert r[y] == ms[y] && ShCleared(ms, y);
      } else if y == j {
        PrevOvertPrefix(r, ms, y);
        AssimilationOfObjectSh(ms, i);
        ClearedAfterLastS(ms[j].text, r[j].text);
        assert r[j].functions == ms[j].functions && ShCleared(ms, y);
      } else {
        assert ms[y].text == [];
      }
    }
  }

  /** A text whose last letter became `s` starts with `š` only if it did before. */
  lemma ClearedAfterLastS(a: string, b: string)
    requires a != [] && b == DropLast(a) + "s"
    ensures StartsWith(b, "š") ==> StartsWith(a, "š")
  {
    if |a| >= 2 {
      assert b[0] == a[0];
    }
  }

  function AssimilateObjectSh(ms: seq<Morpheme>): seq<Morpheme> {
    AssimilateObjectFrom(ms, 0)
  }

  /** Without an object suffix the pass changes nothing. */
  lemma {:induction false} AssimilateObjectWithoutObject(ms: seq<Morpheme>, i: nat)
    requires forall x :: 0 <= x < |ms| ==> !HasObject(ms[x].functions)
    ensures AssimilateObjectFrom(ms, i) == ms
    decreases |ms| - i
  {
    if i < |ms| {
      AssimilateObjectWithoutObject(ms, i + 1);
    }
  }

  /** After the pass no `tš`, `dš`, `sš`… is left at an object suffix (grammar.py:436-444). */
  lemma ObjectShCleared(ms: seq<Morpheme>)
    ensures var r := AssimilateObjectSh(ms); forall y :: 0 <= y < |r| ==> !ObjectAssimilates(r[y], PrevOvert(r, y).1)
  {
    var r := AssimilateObjectSh(ms);
    forall y | 0 <= y < |r|
      ensures !ObjectAssimilates(r[y], PrevOvert(r, y).1)
    {
      assert ShCleared(r, y);
    }
  }

  // ---------------------------------------------------------------- assimilate_b

  /** The condition of grammar.py:421-422: a text ending in `b` before an overt text starting with `m`. */
  predicate BAssimilates(t: string, next: string) {
    EndsWith(t, "b") && StartsWith(next, "m")
  }

  /** `assimilate_b` at morpheme `i` (grammar.py:418-424): `b` before `m` becomes `m`. */
  function AssimilateBStep(ms: seq<Morpheme>, i: nat): (r: seq<Morpheme>)
    requires i < |ms|
    ensures SameShape(ms, r) && forall x :: 0 <= x < |ms| && x != i ==> r[x] == ms[x]
    ensures LastEdit(ms[i].text, r[i].text, "m")
    ensures r != ms ==> BAssimilates(ms[i].text, NextOvert(ms, i).1) && r[i].text == DropLast(ms[i].text) + "m"
  {
    var next := NextOvert(ms, i).1;
    var t := ms[i].text;
    if BAssimilates(t, next) then SetText(ms, i, ReplaceLast(t, next[0])) else ms
  }

  /** A `b` before `m` does become `m`. */
  lemma AssimilationOfB(ms: seq<Morpheme>, i: nat)
    requires i < |ms| && BAssimilates(ms[i].text, NextOvert(ms, i).1)
    ensures AssimilateBStep(ms, i)[i].text == DropLast(ms[i].text) + "m"
  {
  }

  /** A step at `x` reads only morpheme `x` and the ones after it. */
  lemma AssimilateBStepLocal(a: seq<Morpheme>, b: seq<Morpheme>, x: nat)
    requires |a| == |b| && x < |a| && forall y :: x <= y < |a| ==> a[y] == b[y]
    ensures AssimilateBStep(a, x)[x] == AssimilateBStep(b, x)[x]
  {
    NextOvertSuffix(a, b, x);
  }

  function AssimilateBFrom(ms: seq<Morpheme>, i: nat): (r: seq<Morpheme>)
    ensures SameShape(ms, r)
    ensures forall x :: 0 <= x < |ms| ==> LastEdit(ms[x].text, r[x].text, "m")
    decreases |ms| - i
  {
    if i >= |ms| then ms else AssimilateBFrom(AssimilateBStep(ms, i), i + 1)
  }

  /**
   * Since a step changes only its own morpheme and reads only later ones, the loop from `i` on
   * leaves morpheme `x` alone if it comes earlier and otherwise rewrites it as the step does in
   * the word the loop started from.
   */
  lemma {:induction false} AssimilateBSimultaneous(ms: seq<Morpheme>, i: nat, x: nat)
    requires x < |ms|
    ensures AssimilateBFrom(ms, i)[x] == if x < i then ms[x] else AssimilateBStep(ms, x)[x]
    decreases |ms| - i
  {
    if i < |ms| {
      var ms1 := AssimilateBStep(ms, i);
      AssimilateBSimultaneous(ms1, i + 1, x);
      if x > i {
        AssimilateBStepLocal(ms1, ms, x);
      }
    }
  }

  function AssimilateB(ms: seq<Morpheme>): seq<Morpheme> {
    AssimilateBFrom(ms, 0)
  }

  /** Where no `b` meets an `m` the pass changes nothing. */
  lemma {:induction false} AssimilateBWithoutB(ms: seq<Morpheme>, i: nat)
    requires forall x :: 0 <= x < |ms| ==> !BAssimilates(ms[x].text, NextOvert(ms, x).1)
    ensures AssimilateBFrom(ms, i) == ms
    decreases |ms| - i
  {
    if i < |ms| {
      AssimilateBWithoutB(ms, i + 1);
    }
  }

  // ---------------------------------------------------------------- assimilate_ventive_dative_m

  /** The condition of grammar.py:449-452: a ventive or dative ending in `m` before a consonant. */
  predicate MAssimilates(m: Morpheme, next: string) {
    (LabelOf(Ventive) in m.functions || HasIndirectObject(m.functions)) &&
    EndsWith(m.text, "m") && StartsWith(next, Consonants)
  }

  /**
   * `assimilate_ventive_dative_m` at morpheme `i` (grammar.py:446-454): the `m` of a ventive or
   * dative suffix becomes the consonant that follows it.
   */
  function AssimilateMStep(ms: seq<Morpheme>, i: nat): (r: seq<Morpheme>)
    requires i < |ms|
    ensures SameShape(ms, r) && forall x :: 0 <= x < |ms| && x != i ==> r[x] == ms[x]
    ensures LastEdit(ms[i].text, r[i].text, Consonants)
    ensures r != ms ==> MAssimilates(ms[i], NextOvert(ms, i).1) &&
                        r[i].text == DropLast(ms[i].text) + [NextOvert(ms, i).1[0]]
  {
    var next := NextOvert(ms, i).1;
    var t := ms[i].text;
    if MAssimilates(ms[i], next) then SetText(ms, i, ReplaceLast(t, next[0]))
    else ms
  }

  /** A ventive or dative `m` before a consonant does become that consonant. */
  lemma AssimilationOfM(ms: seq<Morpheme>, i: nat)
    requires i < |ms| && MAssimilates(ms[i], NextOvert(ms, i).1)
    ensures var next := NextOvert(ms, i).1;
            AssimilateMStep(ms, i)[i].text == DropLast(ms[i].text) + [next[0]]
  {
  }

  /** A step at `x` reads only morpheme `x` and the ones after it. */
  lemma AssimilateMStepLocal(a: seq<Morpheme>, b: seq<Morpheme>, x: nat)
    requires |a| == |b| && x < |a| && forall y :: x <= y < |a| ==> a[y] == b[y]
    ensures AssimilateMStep(a, x)[x] == AssimilateMStep(b, x)[x]
  {
    NextOvertSuffix(a, b, x);
  }

  function AssimilateMFrom(ms: seq<Morpheme>, i: nat): (r: seq<Morpheme>)
    ensures SameShape(ms, r)
    ensures forall x :: 0 <= x < |ms| ==> LastEdit(ms[x].text, r[x].text, Consonants)
    decreases |ms| - i
  {
    if i >= |ms| then ms else AssimilateMFrom(AssimilateMStep(ms, i), i + 1)
  }

  /**
   * Since a step changes only its own morpheme and reads only later ones, the loop from `i` on
   * leaves morpheme `x` alone if it comes earlier and otherwise rewrites it as the step does in
   * the word the loop started from.
   */
  lemma {:induction false} AssimilateMSimultaneous(ms: seq<Morpheme>, i: nat, x: nat)
    requires x < |ms|
    ensures AssimilateMFrom(ms, i)[x] == if x < i then ms[x] else AssimilateMStep(ms, x)[x]
    decreases |ms| - i
  {
    if i < |ms| {
      var ms1 := AssimilateMStep(ms, i);
      AssimilateMSimultaneous(ms1, i + 1, x);
      if x > i {
        AssimilateMStepLocal(ms1, ms, x);
      }
    }
  }

  function AssimilateVentiveDativeM(ms: seq<Morpheme>): seq<Morpheme> {
    AssimilateMFrom(ms, 0)
  }

  /** Where no ventive or dative `m` meets a consonant the pass changes nothing. */
  lemma {:induction false} AssimilateMWithoutM(ms: seq<Morpheme>, i: nat)
    requires forall x :: 0 <= x < |ms| ==> !MAssimilates(ms[x], NextOvert(ms, x).1)
    ensures AssimilateMFrom(ms, i) == ms
    decreases |ms| - i
  {
    if i < |ms| {
      AssimilateMWithoutM(ms, i + 1);
    }
  }

  // ---------------------------------------------------------------- assimilate_n

  /** The exception of grammar.py:411-415: a first radical `n` before R₂ in a passive t/tan form. */
  predicate KeepsN(ms: seq<Morpheme>, i: nat, k: nat, fns0: set<Feature>)
    requires i < |ms| && k < |ms|
  {
    Radical(1) in ms[i].functions && Radical(2) in ms[k].functions &&
    LabelOf(Passive) in fns0 && (LabelOf(Tan) in fns0 || LabelOf(T) in fns0)
  }

  /** `assimilate_n` at morpheme `i` (grammar.py:406-416): `n` before a consonant becomes that consonant. */
  function AssimilateNStep(ms: seq<Morpheme>, i: nat, fns0: set<Feature>): (r: seq<Morpheme>)
    requires i < |ms|
    ensures SameShape(ms, r) && forall x :: 0 <= x < |ms| && x != i ==> r[x] == ms[x]
    ensures LastEdit(ms[i].text, r[i].text, Consonants)
    ensures r != ms ==> EndsWith(ms[i].text, "n") && StartsWith(NextOvert(ms, i).1, Consonants) &&
                        r[i].text == DropLast(ms[i].text) + [NextOvert(ms, i).1[0]]
  {
    var (k, next) := NextOvert(ms, i);
    var t := ms[i].text;
    if EndsWith(t, "n") && StartsWith(next, Consonants) && !KeepsN(ms, i, k, fns0) then
      SetText(ms, i, ReplaceLast(t, next[0]))
    else ms
  }

  /** A step at `x` reads only morpheme `x` and the ones after it. */
  lemma AssimilateNStepLocal(a: seq<Morpheme>, b: seq<Morpheme>, x: nat, fns0: set<Feature>)
    requires |a| == |b| && x < |a| && forall y :: x <= y < |a| ==> a[y] == b[y]
    ensures AssimilateNStep(a, x, fns0)[x] == AssimilateNStep(b, x, fns0)[x]
  {
    NextOvertSuffix(a, b, x);
  }

  function AssimilateNFrom(ms: seq<Morpheme>, i: nat, fns0: set<Feature>): (r: seq<Morpheme>)
    ensures SameShape(ms, r)
    ensures forall x :: 0 <= x < |ms| ==> LastEdit(ms[x].text, r[x].text, Consonants)
    decreases |ms| - i
  {
    if i >= |ms| then ms else AssimilateNFrom(AssimilateNStep(ms, i, fns0), i + 1, fns0)
  }

  /**
   * Since a step changes only its own morpheme and reads only later ones, the loop from `i` on
   * leaves morpheme `x` alone if it comes earlier and otherwise rewrites it as the step does in
   * the word the loop started from.
   */
  lemma {:induction false} AssimilateNSimultaneous(ms: seq<Morpheme>, i: nat, x: nat, fns0: set<Feature>)
    requires x < |ms|
    ensures AssimilateNFrom(ms, i, fns0)[x] == if x < i then ms[x] else AssimilateNStep(ms, x, fns0)[x]
    decreases |ms| - i
  {
    if i < |ms| {
      var ms1 := AssimilateNStep(ms, i, fns0);
      AssimilateNSimultaneous(ms1, i + 1, x, fns0);
      if x > i {
        AssimilateNStepLocal(ms1, ms, x, fns0);
      }
    }
  }

  function AssimilateN(ms: seq<Morpheme>, fns0: set<Feature>): seq<Morpheme> {
    AssimilateNFrom(ms, 0, fns0)
  }

  /** Where no `n` stands before a consonant the pass changes nothing. */
  lemma {:induction false} AssimilateNWithoutN(ms: seq<Morpheme>, i: nat, fns0: set<Feature>)
    requires forall x :: 0 <= x < |ms| ==> !(EndsWith(ms[x].text, "n") && StartsWith(NextOvert(ms, x).1, Consonants))
    ensures AssimilateNFrom(ms, i, fns0) == ms
    decreases |ms| - i
  {
    if i < |ms| {
      AssimilateNWithoutN(ms, i + 1, fns0);
    }
  }

  /** In the Ntn stem and the N perfect, R₁ `n` stays before R₂ (grammar.py:411-415). */
  lemma NoAssimilationOfFirstRadicalN(ms: seq<Morpheme>, i: nat, fns0: set<Feature>)
    requires i < |ms| && NextOvert(ms, i).0 < |ms| && KeepsN(ms, i, NextOvert(ms, i).0, fns0)
    ensures AssimilateNStep(ms, i, fns0) == ms
  {
  }

  /** Every other `n` before a consonant assimilates, giving a geminate. */
  lemma AssimilationOfN(ms: seq<Morpheme>, i: nat, fns0: set<Feature>)
    requires i < |ms| && EndsWith(ms[i].text, "n")
    requires var (k, next) := NextOvert(ms, i); StartsWith(next, Consonants) && !KeepsN(ms, i, k, fns0)
    ensures var r := AssimilateNStep(ms, i, fns0);
            var next := NextOvert(ms, i).1;
            r[i].text == DropLast(ms[i].text) + [next[0]]
  {
  }
}
