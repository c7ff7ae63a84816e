/**
 * `lose_consonants` (grammar.py:312-403): the weak consonants ʾ h ḥ ʿ w y are lost between and
 * after vowels, lengthening or contracting their neighbours; a doubled weak consonant must sit
 * between a short vowel and a short vowel followed by a consonant.
 */
module WeakConsonants {

  import opened Wrappers
  import opened Alphabet
  import opened Morphemes

  /** A geminated weak consonant such as `ʾʾ` (grammar.py:318-320). */
  predicate DoubledWeak(t: string) {
    |t| == 2 && t[0] in WeakConsonants && t[1] == t[0]
  }

  /** `self.morphemes[i].text in WEAK_CONSONANTS` (grammar.py:363). */
  predicate SingleWeak(t: string) {
    IsOneOf(t, WeakConsonants)
  }

  /** The morphemes `i <= x < l` lose their texts (grammar.py:375-377). */
  function BlankRange(ms: seq<Morpheme>, i: nat, l: nat): (r: seq<Morpheme>)
    requires i <= l <= |ms|
    ensures SameShape(ms, r)
    ensures forall x :: 0 <= x < |ms| ==> r[x].text == (if i <= x < l then [] else ms[x].text)
  {
    seq(|ms|, x requires 0 <= x < |ms| => if i <= x < l then ms[x].(text := []) else ms[x])
  }

  /**
   * The rewrite of a doubled weak consonant at `i`, once its neighbours have been checked
   * (grammar.py:328-361): `j`, `k` and `l` are the previous, next and second next overt morphemes.
   */
  function DoubledWeakRewrite(ms: seq<Morpheme>, i: nat, j: nat, k: nat, l: nat, next3: string): (r: seq<Morpheme>)
    requires j < i < k < l < |ms| && DoubledWeak(ms[i].text)
    ensures SameShape(ms, r)
    ensures forall x :: 0 <= x < |ms| && x != i && x != j && x != k && x != l ==> r[x] == ms[x]
    ensures StartsWith(next3, Vowels) ==> r == DoubledBeforeVowel(ms, i, j, k, l)
    ensures !StartsWith(next3, Vowels) ==> r[l] == ms[l] && r[i].text in ["", "ū", "ī"]
    ensures !StartsWith(next3, Vowels) && LabelOf(DStem) in ms[i].functions ==>
              r[j].text == DropLast(ms[j].text) && r[i].text == [] && r[k].text == Lengthen(ms[k].text)
    ensures !StartsWith(next3, Vowels) && LabelOf(DStem) !in ms[i].functions ==>
              r[k] == ms[k] &&
              (r[i].text != [] <==> ms[i].text in ["ww", "yy"] && EndsWith(ms[j].text, "a")) &&
              (r[i].text != [] ==> r[j].text == DropLast(ms[j].text)) &&
              (r[i].text == [] ==> r[j] == ms[j])
    ensures !StartsWith(next3, Vowels) && LabelOf(DStem) !in ms[i].functions && EndsWith(ms[j].text, "a") ==>
              (ms[i].text == "ww" ==> r[i].text == "ū") && (ms[i].text == "yy" ==> r[i].text == "ī")
  {
    var c := ms[i].text[0];
    assert ms[i].text == [c, c];
    if StartsWith(next3, Vowels) then
      DoubledBeforeVowel(ms, i, j, k, l)
    else if LabelOf(DStem) in ms[i].functions then
      var ms1 := SetText(ms, j, DropLast(ms[j].text));
      var ms2 := SetText(ms1, i, "");
      SetText(ms2, k, Lengthen(ms2[k].text))
    else if c == 'w' && EndsWith(ms[j].text, "a") then
      SetText(SetText(ms, j, DropLast(ms[j].text)), i, "ū")
    else if c == 'y' && EndsWith(ms[j].text, "a") then
      SetText(SetText(ms, j, DropLast(ms[j].text)), i, "ī")
    else
      SetText(ms, i, "")
  }

  /**
   * The branch of grammar.py:329-341: a vowel follows the second next overt morpheme, and
   * V₁ʾʾV₂CV₃ becomes V₂CCV₃, or uCCV₃ / iCCV₃ for `aww` / `ayy` outside the D-stem.
   */
  function DoubledBeforeVowel(ms: seq<Morpheme>, i: nat, j: nat, k: nat, l: nat): (r: seq<Morpheme>)
    requires j < i < k < l < |ms| && DoubledWeak(ms[i].text)
    ensures SameShape(ms, r)
    ensures forall x :: 0 <= x < |ms| && x != i && x != j && x != k && x != l ==> r[x] == ms[x]
    ensures r[i].text == [] && r[j].text == DropLast(ms[j].text) && r[l].text == ms[l].text + ms[l].text
    ensures var outside := LabelOf(DStem) !in ms[i].functions && EndsWith(ms[j].text, "a");
            (outside && ms[i].text == "ww" ==> r[k].text == "u") &&
            (outside && ms[i].text == "yy" ==> r[k].text == "i") &&
            (!(outside && ms[i].text in ["ww", "yy"]) ==> r[k].text == ms[k].text)
  {
    var c := ms[i].text[0];
    assert ms[i].text == [c, c];
    var vowel :=
      if LabelOf(DStem) !in ms[i].functions && EndsWith(ms[j].text, "a") then
        (if c == 'w' then "u" else if c == 'y' then "i" else ms[k].text)
      else ms[k].text;
    ms[k := ms[k].(text := vowel)][i := ms[i].(text := "")][j := ms[j].(text := DropLast(ms[j].text))]
      [l := ms[l].(text := ms[l].text + ms[l].text)]
  }

  /**
   * The first test on a single weak consonant (grammar.py:364-367): after a consonant it is lost
   * and the next morpheme lengthened, which raises an `IndexError` when there is none.
   */
  function WeakAfterConsonant(ms: seq<Morpheme>, i: nat, k: nat): (r: Result<seq<Morpheme>, CascadeError>)
    requires i < k
    requires i < |ms|
    ensures r.Failure? <==> k >= |ms|
    ensures r.Success? ==> SameShape(ms, r.value) && r.value[i].text == []
    ensures r.Success? ==> r.value[k].text == Lengthen(ms[k].text)
    ensures r.Success? ==> forall x :: 0 <= x < |ms| && x != i && x != k ==> r.value[x] == ms[x]
  {
    if k < |ms| then Success(SetText(SetText(ms, i, ""), k, Lengthen(ms[k].text)))
    else Failure(NothingToLengthen)
  }

  /**
   * The second test on a single weak consonant (grammar.py:369-403). It reads the neighbour
   * texts `prev`, `next` and `next2` computed before the first test, and the current text at `i`.
   */
  function WeakSecondTest(ms: seq<Morpheme>, i: nat, j: int, k: nat, l: nat, prev: string, next: string,
                          next2: string, root: string, fns0: set<Feature>): (r: seq<Morpheme>)
    requires -1 <= j < i < k < l && i < |ms|
    requires prev != [] ==> 0 <= j
    requires next != [] ==> k < |ms|
    requires next2 != [] ==> l < |ms|
    ensures SameShape(ms, r)
    ensures forall x :: 0 <= x < |ms| && (x < j || x > l) ==> r[x] == ms[x]
  {
    if EndsWith(prev, Vowels) && (next == "a" || next == "e") && StartsWith(next2, Consonants) &&
       next2 == [next2[0], next2[0]] && (ms[i].text != "w" || LabelOf(DStem) !in fns0) then
      BlankRange(ms, i, l)
    else if EndsWith(prev, "a") && StartsWith(next, "a") then
      ContractAroundWeak(ms, i, j, k)
    else if root == "hlk" && HasPerson(ms[Wrap(j, |ms|)].functions) && (next == "ta" || next == "tan") then
      SetText(ms, i, "t")
    else if root == "hlk" && HasPerson(ms[Wrap(j, |ms|)].functions) && next2 == "i" then
      SetText(ms, i, ms[k].text)
    else if EndsWith(ShortenVowels(prev), ShortVowels) && StartsWith(ShortenVowels(next), Consonants) then
      LengthenForWeak(ms, i, j, prev)
    else if ms[i].text != "w" then
      SetText(ms, i, "")
    else
      ms
  }

  /**
   * `awa > ū`, `aya > ī`, `aʾa > ā` (grammar.py:378-384): the vowel before and the vowel after
   * the weak consonant are taken away and the consonant becomes the long vowel.
   */
  function ContractAroundWeak(ms: seq<Morpheme>, i: nat, j: nat, k: nat): (r: seq<Morpheme>)
    requires j < i < k < |ms|
    ensures SameShape(ms, r)
    ensures forall x :: 0 <= x < |ms| && x != i && x != j && x != k ==> r[x] == ms[x]
    ensures r[j].text == DropLast(ms[j].text) && r[k].text == DropFirst(ms[k].text)
    ensures r[i].text == if ms[i].text == "w" then "ū" else if ms[i].text == "y" then "ī" else "ā"
  {
    var ms2 := SetText(ms, j, DropLast(ms[j].text));
    var ms3 := SetText(ms2, i, if ms2[i].text == "w" then "ū" else if ms2[i].text == "y" then "ī" else "ā");
    SetText(ms3, k, DropFirst(ms3[k].text))
  }

  /** `VʾC > V̄C` (grammar.py:395-400): a short previous vowel is lengthened. */
  function LengthenForWeak(ms: seq<Morpheme>, i: nat, j: int, prev: string): (r: seq<Morpheme>)
    requires -1 <= j < i < |ms|
    requires prev != [] ==> 0 <= j
    ensures SameShape(ms, r)
    ensures forall x :: 0 <= x < |ms| && x != i && x != j ==> r[x] == ms[x]
    ensures r[i].text == []
    ensures EndsWith(prev, ShortVowels) ==> r[j].text == Lengthen(prev) && EndsWith(r[j].text, "āēīū")
    ensures !EndsWith(prev, ShortVowels) && 0 <= j ==> r[j] == ms[j]
  {
    var ms2 := if EndsWith(prev, ShortVowels) then SetText(ms, j, Lengthen(prev)) else ms;
    SetText(ms2, i, "")
  }

  /** The loop body for morpheme `i` (grammar.py:313-403). */
  function LoseStep(ms: seq<Morpheme>, i: nat, root: string, fns0: set<Feature>): (r: Result<seq<Morpheme>, CascadeError>)
    requires i < |ms|
    ensures r.Success? ==> SameShape(ms, r.value)
    ensures !DoubledWeak(ms[i].text) && !SingleWeak(ms[i].text) ==> r == Success(ms)
  {
    var (j, prev) := PrevOvert(ms, i);
    var (k, next) := NextOvert(ms, i);
    var (l, next2) := NextOvert(ms, k);
    var (_, next3) := NextOvert(ms, l);
    var t := ms[i].text;
    if DoubledWeak(t) then
      if !EndsWith(prev, ShortVowels) then Failure(NotAfterShortVowel(prev))
      else if !IsOneOf(next, ShortVowels) then Failure(NotBeforeShortVowel(next))
      else if !IsOneOf(next2, Consonants) then Failure(NotBeforeConsonant(next2))
      else Success(DoubledWeakRewrite(ms, i, j, k, l, next3))
    else if SingleWeak(t) then
      var ms1 :- if EndsWith(prev, Consonants) then WeakAfterConsonant(ms, i, k) else Success(ms);
      Success(WeakSecondTest(ms1, i, j, k, l, prev, next, next2, root, fns0))
    else
      Success(ms)
  }

  /** The loop from morpheme `i` on; the first exception ends it. */
  function LoseFrom(ms: seq<Morpheme>, i: nat, root: string, fns0: set<Feature>): (r: Result<seq<Morpheme>, CascadeError>)
    ensures r.Success? ==> SameShape(ms, r.value)
    decreases |ms| - i
  {
    if i >= |ms| then Success(ms)
    else
      var ms1 :- LoseStep(ms, i, root, fns0);
      LoseFrom(ms1, i + 1, root, fns0)
  }

  /** One step of the loop: its exception ends the pass, its result is what the rest works on. */
  lemma LoseFromStep(ms: seq<Morpheme>, i: nat, root: string, fns0: set<Feature>, step: Result<seq<Morpheme>, CascadeError>)
    requires i < |ms| && step == LoseStep(ms, i, root, fns0)
    ensures step.Failure? ==> LoseFrom(ms, i, root, fns0) == Failure(step.error)
    ensures step.Success? ==> LoseFrom(ms, i, root, fns0) == LoseFrom(step.value, i + 1, root, fns0)
  {
  }

  /** The whole pass, with the feature set the constructor computed before the cascade. */
  function LoseConsonants(ms: seq<Morpheme>, root: string, fns0: set<Feature>): Result<seq<Morpheme>, CascadeError> {
    LoseFrom(ms, 0, root, fns0)
  }

  /** A word without a weak consonant morpheme goes through the pass unchanged. */
  lemma {:induction false} LoseWithoutWeak(ms: seq<Morpheme>, i: nat, root: string, fns0: set<Feature>)
    requires forall x :: 0 <= x < |ms| ==> !DoubledWeak(ms[x].text) && !SingleWeak(ms[x].text)
    ensures LoseFrom(ms, i, root, fns0) == Success(ms)
    decreases |ms| - i
  {
    if i < |ms| {
      LoseWithoutWeak(ms, i + 1, root, fns0);
    }
  }

  /**
   * A step fails exactly for a doubled weak consonant not between a short vowel and a short
   * vowel plus consonant, or for a weak consonant after a consonant with nothing after it.
   */
  lemma LoseStepFailure(ms: seq<Morpheme>, i: nat, root: string, fns0: set<Feature>)
    requires i < |ms|
    ensures var prev := PrevOvert(ms, i).1;
            var (k, next) := NextOvert(ms, i);
            var next2 := NextOvert(ms, k).1;
            LoseStep(ms, i, root, fns0).Failure? <==>
              (DoubledWeak(ms[i].text) &&
               (!EndsWith(prev, ShortVowels) || !IsOneOf(next, ShortVowels) || !IsOneOf(next2, Consonants))) ||
              (SingleWeak(ms[i].text) && EndsWith(prev, Consonants) && k >= |ms|)
  {
  }

  /** The three `ValueError`s of grammar.py:322-327, in the order they are tested. */
  lemma DoubledWeakErrors(ms: seq<Morpheme>, i: nat, root: string, fns0: set<Feature>)
    requires i < |ms| && DoubledWeak(ms[i].text)
    ensures var prev := PrevOvert(ms, i).1;
            var (k, next) := NextOvert(ms, i);
            var next2 := NextOvert(ms, k).1;
            var r := LoseStep(ms, i, root, fns0);
            (!EndsWith(prev, ShortVowels) ==> r == Failure(NotAfterShortVowel(prev))) &&
            (EndsWith(prev, ShortVowels) && !IsOneOf(next, ShortVowels) ==> r == Failure(NotBeforeShortVowel(next))) &&
            (EndsWith(prev, ShortVowels) && IsOneOf(next, ShortVowels) && !IsOneOf(next2, Consonants) ==>
               r == Failure(NotBeforeConsonant(next2)))
  {
  }

  /** A step only rewrites morphemes from the previous to the second next overt morpheme. */
  lemma LoseStepLocal(ms: seq<Morpheme>, i: nat, root: string, fns0: set<Feature>)
    requires i < |ms|
    ensures var j := PrevOvert(ms, i).0;
            var l := NextOvert(ms, NextOvert(ms, i).0).0;
            var r := LoseStep(ms, i, root, fns0);
            r.Success? ==> forall x :: 0 <= x < |ms| && (x < j || x > l) ==> r.value[x] == ms[x]
  {
  }

  /** When the pass succeeds, it has rewritten texts only: no morpheme appears or disappears. */
  lemma LoseConsonantsKeepsMorphemes(ms: seq<Morpheme>, root: string, fns0: set<Feature>)
    requires LoseConsonants(ms, root, fns0).Success?
    ensures |LoseConsonants(ms, root, fns0).value| == |ms|
    ensures forall x :: 0 <= x < |ms| ==> LoseConsonants(ms, root, fns0).value[x].functions == ms[x].functions
  {
  }
}
