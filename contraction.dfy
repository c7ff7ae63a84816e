/**
 * The `contract_vowels` pass (grammar.py:471-488): two vowels meeting across a morpheme boundary
 * contract into one, and the second morpheme, with the empty ones between, is absorbed into the
 * first.
 */
module Contraction {

  import opened Alphabet
  import opened Morphemes

  /** Whether morpheme `i` ends in a vowel and the next overt morpheme starts with one that it contracts with. */
  predicate Contracts(ms: seq<Morpheme>, i: nat)
    requires i < |ms|
  {
    var t := ms[i].text;
    var next := NextOvert(ms, i).1;
    EndsWith(t, Vowels) && StartsWith(next, Vowels) &&
    ContractVowels(t[|t| - 1], next[0]) != [t[|t| - 1], next[0]]
  }

  /** The contraction of the vowels meeting after morpheme `i`. */
  function Contraction(ms: seq<Morpheme>, i: nat): string
    requires i < |ms| && Contracts(ms, i)
  {
    var t := ms[i].text;
    ContractVowels(t[|t| - 1], NextOvert(ms, i).1[0])
  }

  /**
   * Morpheme `i` after absorbing morphemes `i + 1` to `k`: its text is `text_i[:-1] + c + text_k[1:]`,
   * and the features it lacks are appended in order (grammar.py:479-484).
   */
  function Merged(ms: seq<Morpheme>, i: nat, k: nat, c: string): (m: Morpheme)
    requires i < k < |ms|
    ensures m.text == DropLast(ms[i].text) + c + DropFirst(ms[k].text)
    ensures m.infixes == ms[i].infixes
    ensures |ms[i].functions| <= |m.functions| && m.functions[..|ms[i].functions|] == ms[i].functions
    ensures forall x, f :: i < x <= k && f in ms[x].functions ==> Contains(m.functions, f)
    ensures Distinct(ms[i].functions) ==> Distinct(m.functions)
  {
    var fs := AppendNew(ms[i].functions, Flatten(ms[i + 1..k + 1]));
    AbsorbedFeatures(ms, i, k, fs);
    Morpheme(DropLast(ms[i].text) + c + DropFirst(ms[k].text), fs, ms[i].infixes)
  }

  /** The features of morphemes `i + 1` to `k`, appended where missing, are all contained, without duplicates. */
  lemma AbsorbedFeatures(ms: seq<Morpheme>, i: nat, k: nat, fs: seq<Feature>)
    requires i < k < |ms| && fs == AppendNew(ms[i].functions, Flatten(ms[i + 1..k + 1]))
    ensures forall x, f :: i < x <= k && f in ms[x].functions ==> Contains(fs, f)
    ensures Distinct(ms[i].functions) ==> Distinct(fs)
  {
    var absorbed := Flatten(ms[i + 1..k + 1]);
    AppendNewMembers(ms[i].functions, absorbed);
    forall x, f | i < x <= k && f in ms[x].functions
      ensures f in absorbed
    {
      FlattenHas(ms[i + 1..k + 1], x - i - 1, f);
    }
    if Distinct(ms[i].functions) {
      AppendNewDistinct(ms[i].functions, absorbed);
    }
  }

  /** The list after the merge: morphemes `i + 1` to `k` are popped (grammar.py:485-487). */
  function Merge(ms: seq<Morpheme>, i: nat, k: nat, c: string): (r: seq<Morpheme>)
    requires i < k < |ms|
    ensures |r| == |ms| - (k - i)
    ensures r[..i] == ms[..i] && r[i] == Merged(ms, i, k, c) && r[i + 1..] == ms[k + 1..]
    ensures NoInfixes(ms) ==> NoInfixes(r)
  {
    var r := ms[..i] + [Merged(ms, i, k, c)] + ms[k + 1..];
    assert r[..i] == ms[..i] && r[i + 1..] == ms[k + 1..];
    r
  }

  /** Absorbing morpheme `l` after morphemes `i + 1` to `l - 1` absorbs them all. */
  lemma AbsorbNext(ms: seq<Morpheme>, i: nat, l: nat)
    requires i < l < |ms|
    ensures AppendNew(AppendNew(ms[i].functions, Flatten(ms[i + 1..l])), ms[l].functions) ==
            AppendNew(ms[i].functions, Flatten(ms[i + 1..l + 1]))
  {
    var a, b := Flatten(ms[i + 1..l]), ms[l].functions;
    FlattenSnoc(ms, i + 1, l);
    AppendNewConcat(ms[i].functions, a, b);
    calc {
      AppendNew(ms[i].functions, Flatten(ms[i + 1..l + 1]));
      { assert Flatten(ms[i + 1..l + 1]) == a + b; }
      AppendNew(ms[i].functions, a + b);
      AppendNew(AppendNew(ms[i].functions, a), b);
    }
  }

  lemma {:induction false} FlattenHas(ms: seq<Morpheme>, x: nat, f: Feature)
    requires x < |ms| && f in ms[x].functions
    ensures f in Flatten(ms)
  {
    if x > 0 {
      FlattenHas(ms[1..], x - 1, f);
    }
  }

  /** The loop from morpheme `i` on; a merged morpheme is not re-examined (grammar.py:488). */
  function ContractFrom(ms: seq<Morpheme>, i: nat): (r: seq<Morpheme>)
    ensures |r| <= |ms|
    ensures i <= |ms| ==> i <= |r| && r[..i] == ms[..i]
    ensures NoInfixes(ms) ==> NoInfixes(r)
    decreases |ms| - i
  {
    if i >= |ms| then ms
    else
      var ms1 := if Contracts(ms, i) then Merge(ms, i, NextOvert(ms, i).0, Contraction(ms, i)) else ms;
      assert i < |ms1| <= |ms| && ms1[..i] == ms[..i];
      var r := ContractFrom(ms1, i + 1);
      assert r[..i] == r[..i + 1][..i] && ms1[..i] == ms1[..i + 1][..i];
      r
  }

  /** The whole pass. */
  function ContractVowelsPass(ms: seq<Morpheme>): seq<Morpheme> {
    ContractFrom(ms, 0)
  }

  /** Where no two vowels meet that contract, the pass changes nothing. */
  lemma {:induction false} ContractWithoutMeeting(ms: seq<Morpheme>, i: nat)
    requires forall x :: i <= x < |ms| ==> !Contracts(ms, x)
    ensures ContractFrom(ms, i) == ms
    decreases |ms| - i
  {
    if i < |ms| {
      ContractWithoutMeeting(ms, i + 1);
    }
  }

  lemma {:induction false} ConcatEmpty(ms: seq<Morpheme>)
    requires forall x :: 0 <= x < |ms| ==> ms[x].text == []
    ensures Concat(ms) == []
  {
    if ms != [] {
      ConcatEmpty(ms[1..]);
    }
  }

  /**
   * A merge replaces exactly the two vowels that meet, `v1 v2`, by their contraction in the
   * joined texts, and leaves everything before and after as it was.
   */
  lemma MergeText(ms: seq<Morpheme>, i: nat)
    requires i < |ms| && Contracts(ms, i)
    ensures var t := ms[i].text;
            var (k, next) := NextOvert(ms, i);
            var before := Concat(ms[..i]) + DropLast(t);
            var after := DropFirst(next) + Concat(ms[k + 1..]);
            Concat(ms) == before + [t[|t| - 1], next[0]] + after &&
            Concat(Merge(ms, i, k, Contraction(ms, i))) == before + Contraction(ms, i) + after
  {
    var t := ms[i].text;
    var (k, next) := NextOvert(ms, i);
    assert EndsWith(t, Vowels) && StartsWith(next, Vowels);
    assert k < |ms| && next == ms[k].text;
    TextsMeet(ms, i, k);
    MergeTextAfter(ms, i);
  }


  /** The last letter of morpheme `i` and the first of morpheme `k` meet in the joined texts. */
  lemma TextsMeet(ms: seq<Morpheme>, i: nat, k: nat)
    requires i < k < |ms| && ms[i].text != [] && ms[k].text != []
    requires forall x :: i < x < k ==> ms[x].text == []
    ensures var t, next := ms[i].text, ms[k].text;
            Concat(ms) == (Concat(ms[..i]) + DropLast(t)) + [t[|t| - 1], next[0]] + (DropFirst(next) + Concat(ms[k + 1..]))
  {
    var t, next := ms[i].text, ms[k].text;
    var a, d := Concat(ms[..i]), Concat(ms[k + 1..]);
    var p, v1, v2, s := DropLast(t), t[|t| - 1], next[0], DropFirst(next);
    ConcatAround(ms, i, k);
    assert t == p + [v1] && next == [v2] + s;
    Regroup(a, p, v1, v2, s, d);
  }

  /** The joined texts around the two vowels that meet, regrouped. */
  lemma Regroup(a: string, p: string, v1: char, v2: char, s: string, d: string)
    ensures a + (p + [v1]) + ([v2] + s) + d == (a + p) + [v1, v2] + (s + d)
  {
    calc {
      a + (p + [v1]) + ([v2] + s) + d;
      { Associative(a, p, [v1]); }
      a + p + [v1] + ([v2] + s) + d;
      { Associative(a + p + [v1], [v2], s); }
      a + p + [v1] + [v2] + s + d;
      { assert [v1] + [v2] == [v1, v2]; Associative(a + p, [v1], [v2]); }
      a + p + [v1, v2] + s + d;
      { Associative(a + p + [v1, v2], s, d); }
      (a + p) + [v1, v2] + (s + d);
    }
  }

  lemma MergeTextAfter(ms: seq<Morpheme>, i: nat)
    requires i < |ms| && Contracts(ms, i)
    ensures var t := ms[i].text;
            var (k, next) := NextOvert(ms, i);
            Concat(Merge(ms, i, k, Contraction(ms, i))) ==
              (Concat(ms[..i]) + DropLast(t)) + Contraction(ms, i) + (DropFirst(next) + Concat(ms[k + 1..]))
  {
    var t := ms[i].text;
    var (k, next) := NextOvert(ms, i);
    var c := Contraction(ms, i);
    var a, d := Concat(ms[..i]), Concat(ms[k + 1..]);
    var p, s := DropLast(t), DropFirst(next);
    MergeConcat(ms, i, k, c);
    calc {
      a + (p + c + s) + d;
      { Associative(a, p + c, s); Associative(a, p, c); }
      a + p + c + s + d;
      { Associative(a + p + c, s, d); }
      (a + p) + c + (s + d);
    }
  }

  lemma Associative(x: string, y: string, z: string)
    ensures x + (y + z) == (x + y) + z
  {
  }

  lemma MergeConcat(ms: seq<Morpheme>, i: nat, k: nat, c: string)
    requires i < k < |ms|
    ensures Concat(Merge(ms, i, k, c)) ==
      Concat(ms[..i]) + (DropLast(ms[i].text) + c + DropFirst(ms[k].text)) + Concat(ms[k + 1..])
  {
    var r := Merge(ms, i, k, c);
    ConcatSplit(r, i);
  }

  /** With only empty morphemes between `i` and `k`, their texts meet in the joined text. */
  lemma {:induction false} ConcatAround(ms: seq<Morpheme>, i: nat, k: nat)
    requires i < k < |ms| && forall x :: i < x < k ==> ms[x].text == []
    ensures Concat(ms) == Concat(ms[..i]) + ms[i].text + ms[k].text + Concat(ms[k + 1..])
  {
    ConcatSplit(ms, i);
    ConcatGap(ms, i, k);
    ConcatEmptyGap(ms, i, k);
    ConcatFrom(ms, k);
    JoinAroundGap(Concat(ms), Concat(ms[..i]), ms[i].text, Concat(ms[i + 1..]), Concat(ms[i + 1..k]),
                  Concat(ms[k..]), ms[k].text, Concat(ms[k + 1..]));
  }

  lemma JoinAroundGap(whole: string, a: string, b: string, tail: string, gap: string, rest: string, c: string, d: string)
    requires whole == a + b + tail && tail == gap + rest && gap == [] && rest == c + d
    ensures whole == a + b + c + d
  {
    assert gap + rest == rest;
  }

  lemma {:induction false} ConcatGap(ms: seq<Morpheme>, i: nat, k: nat)
    requires i < k < |ms|
    ensures Concat(ms[i + 1..]) == Concat(ms[i + 1..k]) + Concat(ms[k..])
  {
    var gap, rest := ms[i + 1..k], ms[k..];
    assert ms[i + 1..] == gap + rest;
    ConcatAppend(gap, rest);
  }

  lemma {:induction false} ConcatEmptyGap(ms: seq<Morpheme>, i: nat, k: nat)
    requires i < k < |ms| && forall x :: i < x < k ==> ms[x].text == []
    ensures Concat(ms[i + 1..k]) == []
  {
    var gap := ms[i + 1..k];
    assert forall x :: 0 <= x < |gap| ==> gap[x].text == [] by {
      forall x | 0 <= x < |gap|
        ensures gap[x].text == []
      {
        assert gap[x] == ms[i + 1 + x];
      }
    }
    ConcatEmpty(gap);
  }

  lemma {:induction false} ConcatFrom(ms: seq<Morpheme>, k: nat)
    requires k < |ms|
    ensures Concat(ms[k..]) == ms[k].text + Concat(ms[k + 1..])
  {
    var rest := ms[k..];
    assert rest[0] == ms[k] && rest[1..] == ms[k + 1..];
  }

  /** Each merge removes the absorbed morphemes: the list shrinks by `k - i`. */
  lemma MergeShrinks(ms: seq<Morpheme>, i: nat)
    requires i < |ms| && Contracts(ms, i)
    ensures var k := NextOvert(ms, i).0;
            i < k < |ms| && |Merge(ms, i, k, Contraction(ms, i))| == |ms| - (k - i)
  {
  }
}

/**
 * `lengthen_before_suffixes` (grammar.py:490-495): a short vowel before `-ma` or a pronominal
 * suffix becomes long.
 */
module Lengthening {

  import opened Alphabet
  import opened Morphemes

  /** Whether morpheme `m` is `-ma` or an object suffix. */
  predicate LengthensBefore(m: Morpheme) {
    LabelOf(Conjunction) in m.functions || HasObject(m.functions)
  }

  /** The loop body for morpheme `i`: only the previous overt morpheme may change. */
  function LengthenStep(ms: seq<Morpheme>, i: nat): (r: seq<Morpheme>)
    requires i < |ms|
    ensures SameShape(ms, r)
    ensures forall x :: 0 <= x < |ms| && x != PrevOvert(ms, i).0 ==> r[x] == ms[x]
    ensures forall x :: 0 <= x < |ms| ==> |r[x].text| == |ms[x].text|
    ensures forall x :: 0 <= x < |ms| ==> ShortenVowels(r[x].text) == ShortenVowels(ms[x].text)
    ensures r != ms ==> LengthensBefore(ms[i]) && EndsWith(PrevOvert(ms, i).1, ShortVowels)
  {
    if LengthensBefore(ms[i]) then
      var (k, prev) := PrevOvert(ms, i);
      if EndsWith(prev, ShortVowels) then
        var r := SetText(ms, k, Lengthen(ms[k].text));
        LengthenedKeepsLetters(ms, k, r);
        r
      else ms
    else ms
  }

  /** Lengthening the vowel that ends morpheme `k` keeps every text's length and letters. */
  lemma LengthenedKeepsLetters(ms: seq<Morpheme>, k: nat, r: seq<Morpheme>)
    requires k < |ms| && EndsWith(ms[k].text, ShortVowels) && r == SetText(ms, k, Lengthen(ms[k].text))
    ensures forall x :: 0 <= x < |ms| ==> |r[x].text| == |ms[x].text|
    ensures forall x :: 0 <= x < |ms| ==> ShortenVowels(r[x].text) == ShortenVowels(ms[x].text)
  {
    ShortenVowelsLengthen(ms[k].text);
  }

  /** The loop from morpheme `i` on. */
  function LengthenFrom(ms: seq<Morpheme>, i: nat): (r: seq<Morpheme>)
    ensures SameShape(ms, r)
    ensures forall x :: 0 <= x < |ms| ==> |r[x].text| == |ms[x].text|
    ensures forall x :: 0 <= x < |ms| ==> ShortenVowels(r[x].text) == ShortenVowels(ms[x].text)
    decreases |ms| - i
  {
    if i >= |ms| then ms else LengthenFrom(LengthenStep(ms, i), i + 1)
  }

  /** The whole pass. */
  function LengthenBeforeSuffixes(ms: seq<Morpheme>): seq<Morpheme> {
    LengthenFrom(ms, 0)
  }

  /** Without `-ma` or an object suffix the pass changes nothing. */
  lemma {:induction false} LengthenWithoutSuffixes(ms: seq<Morpheme>, i: nat)
    requires forall x :: 0 <= x < |ms| ==> !LengthensBefore(ms[x])
    ensures LengthenFrom(ms, i) == ms
    decreases |ms| - i
  {
    if i < |ms| {
      LengthenWithoutSuffixes(ms, i + 1);
    }
  }

  /** The lengthened vowel is the last letter of the previous overt morpheme, and it becomes long. */
  lemma LengthenStepEffect(ms: seq<Morpheme>, i: nat)
    requires i < |ms| && LengthensBefore(ms[i]) && EndsWith(PrevOvert(ms, i).1, ShortVowels)
    ensures var k := PrevOvert(ms, i).0;
            var r := LengthenStep(ms, i);
            0 <= k < i && DropLast(r[k].text) == DropLast(ms[k].text) && EndsWith(r[k].text, "āēīū")
  {
  }
}
