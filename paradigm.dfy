/**
 * Whole forms through the cascade: the G durative 3rd singular (grammar.py:533-628, then
 * grammar.py:218-235) of a strong root, and of a root whose third radical is ʾ, with the
 * `prs` and `bnʾ` entries of the lexicon (lexicon.py:11, 25) as instances.
 */
module Paradigm {
  import opened Wrappers
  import opened Alphabet
  import opened Morphemes
  import opened Overlong
  import opened Colouring
  import opened WeakConsonants
  import opened Contraction
  import opened Lengthening
  import opened Assimilation
  import opened Syncope
  import opened RootMerge
  import opened Verbs
  import opened Cascade

  /** A consonant that no pass treats as weak. */
  predicate StrongRadical(c: char) {
    c in StrongConsonants && c !in Alphabet.WeakConsonants
  }

  /** `durative((3, g, SG))`: G stem, no t, no suffix, no object. */
  function ThirdSingularDurative(g: Gender): Request {
    Request(Agreement(Third, g, SG), false, None, false, false, false, G, None, None)
  }

  /** The G durative 3rd singular before the cascade, with `r3` the text of the third radical. */
  function Durative(c1: char, c2: char, v: char, r3: string): seq<Morpheme> {
    [Plain("i", [PersonOf(Third)]), Plain([c1], [Radical(1)]), Plain("a", [LabelOf(Imperfective)]),
     Plain([c2, c2], [Radical(2), LabelOf(Imperfective)]), Plain([v], [LabelOf(Imperfective)]),
     Plain(r3, [Radical(3)]), Plain("", [PersonOf(Third), NumberOf(SG)])]
  }

  /** `ms` is that list, morpheme by morpheme. */
  predicate IsDurative(ms: seq<Morpheme>, c1: char, c2: char, v: char, r3: string) {
    |ms| == 7 && ms[0] == Plain("i", [PersonOf(Third)]) && ms[1] == Plain([c1], [Radical(1)]) &&
    ms[2] == Plain("a", [LabelOf(Imperfective)]) && ms[3] == Plain([c2, c2], [Radical(2), LabelOf(Imperfective)]) &&
    ms[4] == Plain([v], [LabelOf(Imperfective)]) && ms[5] == Plain(r3, [Radical(3)]) &&
    ms[6] == Plain("", [PersonOf(Third), NumberOf(SG)])
  }

  lemma DurativeIs(c1: char, c2: char, v: char, r3: string)
    ensures IsDurative(Durative(c1, c2, v, r3), c1, c2, v, r3)
  {
  }

  /** Strong first and second radicals, a short durative vowel, and a strong or deleted third radical. */
  predicate Plainish(c1: char, c2: char, v: char, r3: string) {
    StrongRadical(c1) && StrongRadical(c2) && v in ShortVowels &&
    (r3 == [] || (|r3| == 1 && StrongRadical(r3[0])))
  }

  /** What the alphabet says about the letters of such a form. */
  lemma PlainishLetters(c1: char, c2: char, v: char, r3: string)
    requires Plainish(c1, c2, v, r3)
    ensures c1 in Consonants && c1 !in Vowels && c2 in Consonants && c2 !in Vowels
    ensures v in Vowels && v !in Consonants
    ensures r3 != [] ==> r3[0] in Consonants && r3[0] !in Vowels
    ensures 'a' !in Consonants && 'i' !in Consonants
  {
    assert StrongConsonants <= Consonants;
    ConsonantsAreNotVowels(c1);
    ConsonantsAreNotVowels(c2);
    if v in Consonants {
      ConsonantsAreNotVowels(v);
    }
    if r3 != [] {
      ConsonantsAreNotVowels(r3[0]);
    }
    if 'a' in Consonants {
      ConsonantsAreNotVowels('a');
    }
    if 'i' in Consonants {
      ConsonantsAreNotVowels('i');
    }
  }

  /** What `finite_form` appends for such a request (grammar.py:533-628). */
  lemma DurativeUnderlying(c1: char, c2: char, c3: char, v: char, pv: string, g: Gender)
    requires c1 != 'w'
    ensures var verb := Verb([c1, c2, c3], [v], pv);
            WellFormed(verb, ThirdSingularDurative(g)) &&
            Underlying(verb, ThirdSingularDurative(g)) == Durative(c1, c2, v, [c3])
  {
    var verb, q := Verb([c1, c2, c3], [v], pv), ThirdSingularDurative(g);
    assert !DPrefix(verb, q) && !VentiveOn(q);
    var ms := Durative(c1, c2, v, [c3]);
    assert Before(verb, q) == ms[..1];
    assert FirstRadical(verb, q) == ms[1] && TAfter(q) == [] && AspectVowel(verb, q) == [ms[2]];
    assert [SecondRadical(verb, q), StemVowel(verb, q), ThirdRadical(verb)] == ms[3..6];
    assert Suffixes(verb, q, false) == ms[6..];
  }

  /** The copies the cascade starts from are the morphemes themselves. */
  lemma DurativeCopies(ms: seq<Morpheme>, c1: char, c2: char, v: char, r3: string)
    requires IsDurative(ms, c1, c2, v, r3)
    ensures Copies(ms) == ms
  {
    assert forall x :: 0 <= x < |ms| ==> Copies(ms)[x] == ms[x];
  }

  /** The overt text after each morpheme. */
  lemma DurativeNext(ms: seq<Morpheme>, c1: char, c2: char, v: char, r3: string)
    requires IsDurative(ms, c1, c2, v, r3)
    ensures NextOvert(ms, 0).1 == [c1] && NextOvert(ms, 1).1 == "a" && NextOvert(ms, 2).1 == [c2, c2]
    ensures NextOvert(ms, 3).1 == [v] && NextOvert(ms, 4).1 == r3
    ensures NextOvert(ms, 5).1 == [] && NextOvert(ms, 6).1 == []
  {
    assert NextOvert(ms, 5) == (7, []);
  }

  /** No `tan` and no ʿ or ḥ: the first two passes change nothing. */
  lemma DurativeEarlyPasses(ms: seq<Morpheme>, c1: char, c2: char, v: char, r3: string)
    requires IsDurative(ms, c1, c2, v, r3)
    requires StrongRadical(c1) && StrongRadical(c2) && v in ShortVowels && |r3| == 1 && r3[0] !in "ʿḥ"
    ensures AvoidOverlongClusters(ms) == ms && ColourFrom(ms, 0) == ms
  {
    OverlongWithoutTan(ms, 0);
    ColouringLetters(c1, c2, v);
    assert !Trigger(ms[0]) && !Trigger(ms[1]) && !Trigger(ms[2]) && !Trigger(ms[3]);
    assert !Trigger(ms[4]) && !Trigger(ms[5]) && !Trigger(ms[6]);
    NoTriggerInSeven(ms);
    ColouringWithoutTrigger(ms);
  }

  lemma NoTriggerInSeven(ms: seq<Morpheme>)
    requires |ms| == 7 && !Trigger(ms[0]) && !Trigger(ms[1]) && !Trigger(ms[2]) && !Trigger(ms[3])
    requires !Trigger(ms[4]) && !Trigger(ms[5]) && !Trigger(ms[6])
    ensures forall j :: 0 <= j < |ms| ==> !Trigger(ms[j])
  {
  }

  /** Neither ʿ nor ḥ, and no first radical `y`. */
  lemma ColouringLetters(c1: char, c2: char, v: char)
    requires StrongRadical(c1) && StrongRadical(c2) && v in ShortVowels
    ensures c1 != 'ʿ' && c1 != 'ḥ' && c1 != 'y' && c2 != 'ʿ' && c2 != 'ḥ' && v != 'ʿ' && v != 'ḥ'
  {
  }

  /** No vowel meets another: the contraction changes nothing. */
  lemma DurativeContraction(ms: seq<Morpheme>, c1: char, c2: char, v: char, r3: string)
    requires IsDurative(ms, c1, c2, v, r3) && Plainish(c1, c2, v, r3)
    ensures ContractVowelsPass(ms) == ms
  {
    PlainishLetters(c1, c2, v, r3);
    DurativeNext(ms, c1, c2, v, r3);
    assert forall x :: 0 <= x < |ms| ==> !Contracts(ms, x);
    ContractWithoutMeeting(ms, 0);
  }

  /** No morpheme of the form carries an object, a conjunction or a t/tan label. */
  lemma DurativeFeatures(ms: seq<Morpheme>, c1: char, c2: char, v: char, r3: string)
    requires IsDurative(ms, c1, c2, v, r3)
    ensures forall x :: 0 <= x < |ms| ==> !LengthensBefore(ms[x]) && !HasObject(ms[x].functions) && !IsTInfix(ms[x].functions)
  {
    forall x | 0 <= x < |ms|
      ensures !LengthensBefore(ms[x]) && !HasObject(ms[x].functions) && !IsTInfix(ms[x].functions)
    {
      var fs := ms[x].functions;
      assert forall f :: f in fs ==> !f.VerbObject? && f != LabelOf(Conjunction) && f != LabelOf(T) && f != LabelOf(Tan);
    }
  }

  /** No suffix lengthens and no t or object meets the root. */
  lemma DurativeLengthening(ms: seq<Morpheme>, c1: char, c2: char, v: char, r3: string)
    requires IsDurative(ms, c1, c2, v, r3)
    ensures LengthenBeforeSuffixes(ms) == ms && AssimilateT(ms) == ms && AssimilateObjectSh(ms) == ms
  {
    DurativeFeatures(ms, c1, c2, v, r3);
    LengthenWithoutSuffixes(ms, 0);
    AssimilateTWithoutInfix(ms);
    AssimilateObjectWithoutObject(ms, 0);
  }

  /** The letters the assimilation rules look for. */
  lemma AssimilatingLetters()
    ensures 'm' in Consonants && 'b' !in ShortVowels && 'm' !in ShortVowels && 'n' !in ShortVowels
  {
  }

  /** Where every consonant follows a short vowel, no assimilation rule applies. */
  lemma OpenSyllablesUnassimilated(ms: seq<Morpheme>, fns0: set<Feature>)
    requires forall x :: 0 <= x < |ms| && StartsWith(NextOvert(ms, x).1, Consonants) ==> EndsWith(ms[x].text, ShortVowels)
    ensures AssimilateB(ms) == ms && AssimilateVentiveDativeM(ms) == ms && AssimilateN(ms, fns0) == ms
  {
    AssimilatingLetters();
    forall x | 0 <= x < |ms|
      ensures !BAssimilates(ms[x].text, NextOvert(ms, x).1)
      ensures !MAssimilates(ms[x], NextOvert(ms, x).1)
      ensures !(EndsWith(ms[x].text, "n") && StartsWith(NextOvert(ms, x).1, Consonants))
    {
      var t, next := ms[x].text, NextOvert(ms, x).1;
      if StartsWith(next, Consonants) {
        assert t != [] && t[|t| - 1] in ShortVowels;
      } else {
        assert !StartsWith(next, "m");
      }
    }
    AssimilateBWithoutB(ms, 0);
    AssimilateMWithoutM(ms, 0);
    AssimilateNWithoutN(ms, 0, fns0);
  }

  /** No `b`, `m` or `n` assimilates. */
  lemma DurativeAssimilation(ms: seq<Morpheme>, c1: char, c2: char, v: char, r3: string, fns0: set<Feature>)
    requires IsDurative(ms, c1, c2, v, r3) && Plainish(c1, c2, v, r3)
    ensures AssimilateB(ms) == ms && AssimilateVentiveDativeM(ms) == ms && AssimilateN(ms, fns0) == ms
  {
    DurativeOpen(ms, c1, c2, v, r3);
    OpenSyllablesUnassimilated(ms, fns0);
  }

  /** Every morpheme that a consonant follows ends in a short vowel. */
  lemma DurativeOpen(ms: seq<Morpheme>, c1: char, c2: char, v: char, r3: string)
    requires IsDurative(ms, c1, c2, v, r3) && Plainish(c1, c2, v, r3)
    ensures forall x :: 0 <= x < |ms| && StartsWith(NextOvert(ms, x).1, Consonants) ==> EndsWith(ms[x].text, ShortVowels)
  {
    PlainishLetters(c1, c2, v, r3);
    DurativeNext(ms, c1, c2, v, r3);
    forall x | 0 <= x < |ms| && StartsWith(NextOvert(ms, x).1, Consonants)
      ensures EndsWith(ms[x].text, ShortVowels)
    {
      assert x == 0 || x == 2 || x == 4;
    }
  }

  /** Seven morphemes without infixes read as their seven texts. */
  lemma TextOfSeven(ms: seq<Morpheme>)
    requires |ms| == 7 && NoInfixes(ms)
    ensures Text(ms) == ms[0].text + (ms[1].text + (ms[2].text + (ms[3].text + (ms[4].text + (ms[5].text + ms[6].text)))))
  {
    TextIsConcat(ms);
    assert Concat(ms[6..]) == ms[6].text by { assert ms[6..][1..] == []; }
    assert Concat(ms[5..]) == ms[5].text + Concat(ms[6..]) by { assert ms[5..][1..] == ms[6..]; }
    assert Concat(ms[4..]) == ms[4].text + Concat(ms[5..]) by { assert ms[4..][1..] == ms[5..]; }
    assert Concat(ms[3..]) == ms[3].text + Concat(ms[4..]) by { assert ms[3..][1..] == ms[4..]; }
    assert Concat(ms[2..]) == ms[2].text + Concat(ms[3..]) by { assert ms[2..][1..] == ms[3..]; }
    assert Concat(ms[1..]) == ms[1].text + Concat(ms[2..]) by { assert ms[1..][1..] == ms[2..]; }
  }

  /** The surface text: `i`, R₁, `a`, R₂R₂, the vowel and what is left of R₃. */
  lemma DurativeText(ms: seq<Morpheme>, c1: char, c2: char, v: char, r3: string)
    requires IsDurative(ms, c1, c2, v, r3)
    ensures Text(ms) == ['i', c1, 'a', c2, c2, v] + r3
  {
    TextOfSeven(ms);
  }

  /** The pattern of syncope finds nothing in `i`, R₁, `a`, R₂R₂, the vowel and R₃. */
  lemma DurativeUnsyncopated(c1: char, c2: char, v: char, r3: string)
    requires Plainish(c1, c2, v, r3)
    ensures Search(['i', c1, 'a', c2, c2, v] + r3, 0) == None
  {
    PlainishLetters(c1, c2, v, r3);
    var s := ['i', c1, 'a', c2, c2, v] + r3;
    forall p | 0 <= p < |s|
      ensures MatchAt(s, p) == None
    {
      if p == 0 {
        assert PairRun(s, 4) == 0;
        assert PairRun(s, 2) == 1;
      } else if p == 2 {
        assert PairRun(s, 4) == 0;
      } else if p == 5 && r3 != [] {
        assert PairRun(s, 7) == 0;
      }
    }
    NoMatchSearch(s, 0);
  }

  /** Hence the syncope changes nothing. */
  lemma DurativeSyncope(ms: seq<Morpheme>, c1: char, c2: char, v: char, r3: string)
    requires IsDurative(ms, c1, c2, v, r3) && Plainish(c1, c2, v, r3)
    ensures Syncopate(ms) == ms
  {
    DurativeText(ms, c1, c2, v, r3);
    DurativeUnsyncopated(c1, c2, v, r3);
  }

  /** The search finds nothing where the pattern matches at no position. */
  lemma {:induction false} NoMatchSearch(s: string, p: nat)
    requires forall q :: p <= q < |s| ==> MatchAt(s, q) == None
    ensures Search(s, p) == None
    decreases |s| - p
  {
    if p < |s| {
      NoMatchSearch(s, p + 1);
    }
  }

  /** R₁ in morpheme 1, R₂ in morpheme 3 and R₃ in morpheme 5, without infixes. */
  lemma DurativeLayout(ms: seq<Morpheme>, c1: char, c2: char, v: char, r3: string)
    requires IsDurative(ms, c1, c2, v, r3)
    ensures RootLayout(ms, 1, 5)
  {
    assert NoInfixes(ms);
    forall x | 0 <= x < |ms|
      ensures Radical(1) in ms[x].functions <==> x == 1
      ensures Radical(3) in ms[x].functions <==> x == 5
      ensures !IsTInfix(ms[x].functions)
    {
    }
    assert Radical(2) in ms[3].functions;
  }

  /** Each radical sits in one morpheme of the durative, once. */
  lemma DurativeRadicalsOnce(ms: seq<Morpheme>, c1: char, c2: char, v: char, r3: string)
    requires IsDurative(ms, c1, c2, v, r3)
    ensures EachRadicalOnce(ms, 1, 5)
  {
    forall x | 1 <= x <= 5
      ensures forall f: Feature :: f.Radical? ==> multiset(ms[x].functions)[f] <= 1
      ensures forall f: Feature :: f.Radical? && f in ms[x].functions ==> x % 2 == 1 && f.position == (x + 1) / 2
    {
      DurativeFeaturesAt(ms, c1, c2, v, r3, x);
      AtMostOneRadical(ms[x].functions);
    }
  }

  /** Morpheme `x` of the durative holds R₍ₓ₊₁₎/₂ when `x` is odd, then at most one other feature. */
  lemma DurativeFeaturesAt(ms: seq<Morpheme>, c1: char, c2: char, v: char, r3: string, x: nat)
    requires IsDurative(ms, c1, c2, v, r3) && 1 <= x <= 5
    ensures 1 <= |ms[x].functions| <= 2 && (|ms[x].functions| == 2 ==> !ms[x].functions[1].Radical?)
    ensures ms[x].functions[0].Radical? <==> x % 2 == 1
    ensures x % 2 == 1 ==> ms[x].functions[0] == Radical((x + 1) / 2)
  {
  }

  /** A list of one feature, or of a feature and a non-radical, holds each radical at most once. */
  lemma AtMostOneRadical(fs: seq<Feature>)
    requires 1 <= |fs| <= 2 && (|fs| == 2 ==> !fs[1].Radical?)
    ensures forall f: Feature :: f.Radical? ==> multiset(fs)[f] <= 1
    ensures forall f: Feature :: f.Radical? && f in fs ==> f == fs[0]
  {
    if |fs| == 2 {
      assert fs == [fs[0]] + [fs[1]];
    } else {
      assert fs == [fs[0]];
    }
  }

  /** The root morpheme of the durative keeps no radical feature. */
  lemma DurativeRootClears(ms: seq<Morpheme>, c1: char, c2: char, v: char, r3: string, root: string)
    requires IsDurative(ms, c1, c2, v, r3)
    ensures MergeRoot(ms, root).Success? && 1 < |MergeRoot(ms, root).value|
    ensures forall f :: f in MergeRoot(ms, root).value[1].functions ==> !f.Radical?
  {
    DurativeLayout(ms, c1, c2, v, r3);
    DurativeRadicalsOnce(ms, c1, c2, v, r3);
    MergeRootClearsRadicals(ms, root, 1, 5);
  }

  /** The merge succeeds and keeps the text. */
  lemma DurativeMerge(ms: seq<Morpheme>, c1: char, c2: char, v: char, r3: string, root: string)
    requires IsDurative(ms, c1, c2, v, r3)
    ensures MergeRoot(ms, root).Success? && Text(MergeRoot(ms, root).value) == Text(ms)
  {
    DurativeLayout(ms, c1, c2, v, r3);
    MergeRootLayout(ms, root, 1, 5);
  }
  /** Up to the durative vowel the form has no weak consonant. */
  lemma DurativeStrongStem(ms: seq<Morpheme>, c1: char, c2: char, v: char, r3: string)
    requires IsDurative(ms, c1, c2, v, r3) && Plainish(c1, c2, v, [])
    ensures forall x :: 0 <= x < 5 ==> !DoubledWeak(ms[x].text) && !SingleWeak(ms[x].text)
  {
    WeakLetters(c1, c2, v, []);
    forall x | 0 <= x < 5
      ensures !DoubledWeak(ms[x].text) && !SingleWeak(ms[x].text)
    {
    }
  }

  /** Texts without weak consonants lose nothing. */
  lemma DurativeKeepsStrong(ms: seq<Morpheme>, c1: char, c2: char, v: char, r3: string, i: nat, root: string, fns0: set<Feature>)
    requires IsDurative(ms, c1, c2, v, r3) && Plainish(c1, c2, v, r3)
    ensures LoseFrom(ms, i, root, fns0) == Success(ms)
  {
    DurativeStrongStem(ms, c1, c2, v, r3);
    assert !SingleWeak(ms[6].text) && !DoubledWeak(ms[5].text) && !DoubledWeak(ms[6].text);
    assert !SingleWeak(ms[5].text);
    LoseWithoutWeak(ms, i, root, fns0);
  }

  /** The vowels of the form are not weak consonants. */
  lemma WeakLetters(c1: char, c2: char, v: char, r3: string)
    requires Plainish(c1, c2, v, r3)
    ensures 'i' !in Alphabet.WeakConsonants && 'a' !in Alphabet.WeakConsonants && v !in Alphabet.WeakConsonants
  {
  }

  /**
   * At a final ʾ after the vowel, with no overt morpheme after it, every test of the second
   * chain fails up to the last one, which empties the morpheme (grammar.py:391-392).
   */
  lemma AlephAfterVowel(ms: seq<Morpheme>, c1: char, c2: char, v: char, root: string, fns0: set<Feature>)
    requires IsDurative(ms, c1, c2, v, "ʾ") && Plainish(c1, c2, v, []) && root != "hlk"
    ensures LoseStep(ms, 5, root, fns0) == Success(SetText(ms, 5, ""))
  {
    PlainishLetters(c1, c2, v, []);
    assert PrevOvert(ms, 5) == (4, [v]);
    assert NextOvert(ms, 5) == (7, []);
    assert SingleWeak(ms[5].text) && !DoubledWeak(ms[5].text);
    assert !EndsWith([v], Consonants);
    assert WeakSecondTest(ms, 5, 4, 7, 8, [v], [], [], root, fns0) == SetText(ms, 5, "");
  }

  /** A final ʾ after the durative vowel, with nothing after it, is dropped (grammar.py:391-392). */
  lemma DurativeLosesAleph(ms: seq<Morpheme>, c1: char, c2: char, v: char, root: string, fns0: set<Feature>)
    requires IsDurative(ms, c1, c2, v, "ʾ") && Plainish(c1, c2, v, []) && root != "hlk"
    ensures LoseConsonants(ms, root, fns0).Success?
    ensures IsDurative(LoseConsonants(ms, root, fns0).value, c1, c2, v, [])
  {
    var ms1 := SetText(ms, 5, "");
    DurativeStrongStem(ms, c1, c2, v, "ʾ");
    forall x | 0 <= x < 5
      ensures LoseStep(ms, x, root, fns0) == Success(ms)
    {
    }
    StrongStepsSkipped(ms, 0, 5, root, fns0);
    AlephAfterVowel(ms, c1, c2, v, root, fns0);
    assert IsDurative(ms1, c1, c2, v, []);
    DurativeKeepsStrong(ms1, c1, c2, v, [], 6, root, fns0);
  }

  /** The steps at morphemes `i` to `e - 1`, none of them weak, pass the word on unchanged. */
  lemma StrongStepsSkipped(ms: seq<Morpheme>, i: nat, e: nat, root: string, fns0: set<Feature>)
    requires i <= e <= |ms| && forall x :: i <= x < e ==> LoseStep(ms, x, root, fns0) == Success(ms)
    ensures LoseFrom(ms, i, root, fns0) == LoseFrom(ms, e, root, fns0)
    decreases e - i
  {
    if i < e {
      LoseFromStep(ms, i, root, fns0, Success(ms));
      StrongStepsSkipped(ms, i + 1, e, root, fns0);
    }
  }

  /** From the contraction on, every pass leaves such a form as it is. */
  lemma DurativeUnchanged(ms: seq<Morpheme>, c1: char, c2: char, v: char, r3: string, fns0: set<Feature>)
    requires IsDurative(ms, c1, c2, v, r3) && Plainish(c1, c2, v, r3)
    ensures ContractVowelsPass(ms) == ms && LengthenBeforeSuffixes(ms) == ms && AssimilateT(ms) == ms
    ensures AssimilateObjectSh(ms) == ms && AssimilateB(ms) == ms && AssimilateVentiveDativeM(ms) == ms
    ensures Syncopate(ms) == ms && AssimilateN(ms, fns0) == ms
  {
    DurativeContraction(ms, c1, c2, v, r3);
    DurativeLengthening(ms, c1, c2, v, r3);
    DurativeAssimilation(ms, c1, c2, v, r3, fns0);
    DurativeSyncope(ms, c1, c2, v, r3);
  }

  /** The passes, when each before the merge leaves the word as it is after the loss of consonants. */
  lemma QuietPasses(ms0: seq<Morpheme>, ms: seq<Morpheme>, root: string, fns0: set<Feature>)
    requires AvoidOverlongClusters(ms0) == ms0 && ColourFrom(ms0, 0) == ms0
    requires LoseConsonants(ms0, root, fns0) == Success(ms)
    requires ContractVowelsPass(ms) == ms && LengthenBeforeSuffixes(ms) == ms && AssimilateT(ms) == ms
    requires AssimilateObjectSh(ms) == ms && AssimilateB(ms) == ms && AssimilateVentiveDativeM(ms) == ms
    requires Syncopate(ms) == ms && AssimilateN(ms, fns0) == ms
    ensures Passes(root, ms0, fns0) == MergeRoot(ms, root)
  {
    assert BeforeMerge(root, ms0, fns0) == Success(ms);
  }

  /** What the decomposition of a word shows is the text its passes leave. */
  lemma DecomposedText(root: string, ms: seq<Morpheme>)
    requires Copies(ms) == ms && Passes(root, ms, FunctionsOf(ms)).Success?
    ensures Decomposed(root, ms).Success?
    ensures SurfaceText(Decomposed(root, ms).value) == Text(Passes(root, ms, FunctionsOf(ms)).value)
  {
  }

  /** Once the consonants are lost, the decomposition shows the form's own text. */
  lemma DurativeAfterLoss(ms0: seq<Morpheme>, ms: seq<Morpheme>, c1: char, c2: char, v: char, r3: string,
                          root: string)
    requires Copies(ms0) == ms0 && AvoidOverlongClusters(ms0) == ms0 && ColourFrom(ms0, 0) == ms0
    requires LoseConsonants(ms0, root, FunctionsOf(ms0)) == Success(ms)
    requires IsDurative(ms, c1, c2, v, r3) && Plainish(c1, c2, v, r3)
    ensures Decomposed(root, ms0).Success?
    ensures SurfaceText(Decomposed(root, ms0).value) == ['i', c1, 'a', c2, c2, v] + r3
  {
    var fns0 := FunctionsOf(ms0);
    DurativeUnchanged(ms, c1, c2, v, r3, fns0);
    QuietPasses(ms0, ms, root, fns0);
    DurativeMerge(ms, c1, c2, v, r3, root);
    DurativeText(ms, c1, c2, v, r3);
    DecomposedText(root, ms0);
  }

  /** The cascade on the underlying form of a strong root. */
  lemma StrongDecomposed(ms: seq<Morpheme>, c1: char, c2: char, c3: char, v: char)
    requires IsDurative(ms, c1, c2, v, [c3]) && Plainish(c1, c2, v, [c3])
    ensures Decomposed([c1, c2, c3], ms).Success?
    ensures SurfaceText(Decomposed([c1, c2, c3], ms).value) == ['i', c1, 'a', c2, c2, v, c3]
  {
    var root := [c1, c2, c3];
    DurativeCopies(ms, c1, c2, v, [c3]);
    var fns0 := FunctionsOf(ms);
    DurativeEarlyPasses(ms, c1, c2, v, [c3]);
    DurativeKeepsStrong(ms, c1, c2, v, [c3], 0, root, fns0);
    DurativeAfterLoss(ms, ms, c1, c2, v, [c3], root);
  }

  /** The cascade on the underlying form of a root whose third radical is ʾ. */
  lemma AlephDecomposed(ms: seq<Morpheme>, c1: char, c2: char, v: char)
    requires IsDurative(ms, c1, c2, v, "ʾ") && Plainish(c1, c2, v, [])
    ensures Decomposed([c1, c2, 'ʾ'], ms).Success?
    ensures SurfaceText(Decomposed([c1, c2, 'ʾ'], ms).value) == ['i', c1, 'a', c2, c2, v]
  {
    var root := [c1, c2, 'ʾ'];
    DurativeCopies(ms, c1, c2, v, "ʾ");
    var fns0 := FunctionsOf(ms);
    DurativeEarlyPasses(ms, c1, c2, v, "ʾ");
    assert root != "hlk";
    DurativeLosesAleph(ms, c1, c2, v, root, fns0);
    DurativeAfterLoss(ms, LoseConsonants(ms, root, fns0).value, c1, c2, v, [], root);
  }

  /**
   * The G durative 3rd singular of a strong root: `i`, R₁, `a`, R₂ doubled, the durative vowel
   * and R₃, whatever the gender and the perfective vowel.
   */
  lemma StrongDurative(c1: char, c2: char, c3: char, v: char, pv: string, g: Gender)
    requires StrongRadical(c1) && StrongRadical(c2) && StrongRadical(c3) && v in ShortVowels
    ensures var verb := Verb([c1, c2, c3], [v], pv);
            var d := Decomposed(verb.root, Underlying(verb, ThirdSingularDurative(g)));
            WellFormed(verb, ThirdSingularDurative(g)) && d.Success? && SurfaceText(d.value) == ['i', c1, 'a', c2, c2, v, c3]
  {
    PlainishLetters(c1, c2, v, [c3]);
    DurativeUnderlying(c1, c2, c3, v, pv, g);
    DurativeIs(c1, c2, v, [c3]);
    StrongDecomposed(Durative(c1, c2, v, [c3]), c1, c2, c3, v);
  }

  /**
   * The G durative 3rd singular of a root whose third radical is ʾ: the ʾ is lost after the
   * durative vowel, leaving `i`, R₁, `a`, R₂ doubled and the vowel.
   */
  lemma ThirdAlephDurative(c1: char, c2: char, v: char, pv: string, g: Gender)
    requires StrongRadical(c1) && StrongRadical(c2) && v in ShortVowels
    ensures var verb := Verb([c1, c2, 'ʾ'], [v], pv);
            var d := Decomposed(verb.root, Underlying(verb, ThirdSingularDurative(g)));
            WellFormed(verb, ThirdSingularDurative(g)) && d.Success? && SurfaceText(d.value) == ['i', c1, 'a', c2, c2, v]
  {
    PlainishLetters(c1, c2, v, []);
    DurativeUnderlying(c1, c2, 'ʾ', v, pv, g);
    DurativeIs(c1, c2, v, "ʾ");
    AlephDecomposed(Durative(c1, c2, v, "ʾ"), c1, c2, v);
  }

  /** `iparras`, the durative of `prs` (to divide). */
  lemma DurativeOfPrs(g: Gender)
    ensures var verb := Verb("prs", "a", "u");
            var d := Decomposed(verb.root, Underlying(verb, ThirdSingularDurative(g)));
            WellFormed(verb, ThirdSingularDurative(g)) && d.Success? && SurfaceText(d.value) == "iparras"
  {
    assert StrongRadical('p') && StrongRadical('r') && StrongRadical('s') && 'a' in ShortVowels;
    StrongDurative('p', 'r', 's', 'a', "u", g);
  }

  /** `ibanni`, the durative of `bnʾ` (to build): the final ʾ does not stand before the suffix. */
  lemma DurativeOfBna(g: Gender)
    ensures var verb := Verb("bnʾ", "i", "i");
            var d := Decomposed(verb.root, Underlying(verb, ThirdSingularDurative(g)));
            WellFormed(verb, ThirdSingularDurative(g)) && d.Success? && SurfaceText(d.value) == "ibanni"
  {
    assert StrongRadical('b') && StrongRadical('n') && 'i' in ShortVowels;
    ThirdAlephDurative('b', 'n', 'i', "i", g);
  }
}
