/**
 * `syncopate_vowels` (grammar.py:456-469): the leftmost match of `(?:VC)+(V)C[^C]`, with V a
 * short vowel and C a consonant, locates a short vowel in an open syllable; it is deleted from
 * the morpheme that holds it, unless that morpheme is a pronominal suffix.
 */
module Syncope {

  import opened Wrappers
  import opened Alphabet
  import opened Morphemes

  // ---------------------------------------------------------------- the pattern

  /** A short vowel followed by a consonant at `q`. */
  predicate PairAt(s: string, q: nat) {
    q + 1 < |s| && s[q] in ShortVowels && s[q + 1] in Consonants
  }

  /** `m` consecutive vowel-consonant pairs from `p`. */
  predicate Pairs(s: string, p: nat, m: nat)
    decreases m
  {
    m == 0 || (PairAt(s, p) && Pairs(s, p + 2, m - 1))
  }

  /**
   * The pattern matches at `p` with `m` repetitions of `(?:VC)`: the captured vowel is at `p + 2m`,
   * followed by a consonant and a character that is not one.
   */
  predicate PatternAt(s: string, p: nat, m: nat) {
    m >= 1 && Pairs(s, p, m) && PairAt(s, p + 2 * m) && p + 2 * m + 2 < |s| && s[p + 2 * m + 2] !in Consonants
  }

  /** The regular-expression engine takes the most repetitions that still let the match succeed. */
  ghost predicate Greedy(s: string, p: nat, m: nat) {
    PatternAt(s, p, m) && forall m': nat :: m < m' ==> !PatternAt(s, p, m')
  }

  /** The number of vowel-consonant pairs from `p` on. */
  function PairRun(s: string, p: nat): nat
    decreases |s| - p
  {
    if PairAt(s, p) then PairRun(s, p + 2) + 1 else 0
  }

  /** The run is made of pairs, and no pair follows it. */
  lemma {:induction false} PairRunIsMaximal(s: string, p: nat)
    ensures Pairs(s, p, PairRun(s, p)) && !PairAt(s, p + 2 * PairRun(s, p))
    decreases |s| - p
  {
    if PairAt(s, p) {
      var m := PairRun(s, p + 2);
      PairRunIsMaximal(s, p + 2);
      assert p + 2 * (m + 1) == (p + 2) + 2 * m;
    }
  }

  /** The position of the captured vowel when the search is tried at `p` (grammar.py:457-458). */
  function MatchAt(s: string, p: nat): Option<nat> {
    var m := PairRun(s, p);
    if m >= 2 && p + 2 * m < |s| && s[p + 2 * m] !in Consonants then Some(p + 2 * m - 2)
    else if m >= 3 then Some(p + 2 * m - 4)
    else None
  }

  /** `re.search`: the first start position from `p` on where the pattern matches. */
  function Search(s: string, p: nat): Option<nat>
    decreases |s| - p
  {
    if p >= |s| then None
    else if MatchAt(s, p).Some? then MatchAt(s, p)
    else Search(s, p + 1)
  }

  lemma {:induction false} PairsSplit(s: string, p: nat, m: nat)
    requires Pairs(s, p, m + 1)
    ensures Pairs(s, p, m) && PairAt(s, p + 2 * m)
    decreases m
  {
    if m > 0 {
      PairsSplit(s, p + 2, m - 1);
    }
  }

  lemma {:induction false} PairsBelowRun(s: string, p: nat, m: nat)
    requires m <= PairRun(s, p)
    ensures Pairs(s, p, m)
    decreases m
  {
    if m > 0 {
      PairsBelowRun(s, p + 2, m - 1);
    }
  }

  lemma {:induction false} PairsWithinRun(s: string, p: nat, m: nat)
    requires Pairs(s, p, m)
    ensures m <= PairRun(s, p)
    decreases m
  {
    if m > 0 {
      PairsWithinRun(s, p + 2, m - 1);
    }
  }

  /** A match with `m` repetitions leaves at least one more pair in the run. */
  lemma PatternBelowRun(s: string, p: nat, m: nat)
    requires PatternAt(s, p, m)
    ensures m + 1 <= PairRun(s, p)
    ensures m + 1 == PairRun(s, p) ==> p + 2 * PairRun(s, p) < |s| && s[p + 2 * PairRun(s, p)] !in Consonants
  {
    PairsAppend(s, p, m);
    PairsWithinRun(s, p, m + 1);
  }

  /** Inside the run, the vowel of the next pair is not a consonant, so the pattern matches. */
  lemma PatternInsideRun(s: string, p: nat, m: nat)
    requires 1 <= m && m + 2 <= PairRun(s, p)
    ensures PatternAt(s, p, m)
  {
    PairsBelowRun(s, p, m + 2);
    PairsSplit(s, p, m + 1);
    PairsSplit(s, p, m);
    var q := p + 2 * m + 2;
    assert PairAt(s, q) by {
      assert q == p + 2 * (m + 1);
    }
    if s[q] in Consonants {
      ConsonantsAreNotVowels(s[q]);
    }
  }

  /** At the end of the run, the pattern matches when a non-consonant follows the run. */
  lemma PatternAtEndOfRun(s: string, p: nat, m: nat)
    requires m >= 1 && m + 1 == PairRun(s, p)
    requires p + 2 * PairRun(s, p) < |s| && s[p + 2 * PairRun(s, p)] !in Consonants
    ensures PatternAt(s, p, m)
  {
    PairsBelowRun(s, p, m + 1);
    PairsSplit(s, p, m);
    var k := p + 2 * PairRun(s, p);
    assert p + 2 * m + 2 == k;
    assert s[p + 2 * m + 2] == s[k];
  }

  /** With `run` pairs from `p`, the pattern matches with `m` repetitions exactly as follows. */
  lemma PatternAtRun(s: string, p: nat, m: nat)
    ensures var run := PairRun(s, p);
            PatternAt(s, p, m) <==>
              (1 <= m && m + 2 <= run) || (m >= 1 && m + 1 == run && p + 2 * run < |s| && s[p + 2 * run] !in Consonants)
  {
    var run := PairRun(s, p);
    if PatternAt(s, p, m) {
      PatternBelowRun(s, p, m);
    }
    if 1 <= m && m + 2 <= run {
      PatternInsideRun(s, p, m);
    }
    if m >= 1 && m + 1 == run && p + 2 * run < |s| && s[p + 2 * run] !in Consonants {
      PatternAtEndOfRun(s, p, m);
    }
  }

  lemma {:induction false} PairsAppend(s: string, p: nat, m: nat)
    requires Pairs(s, p, m) && PairAt(s, p + 2 * m)
    ensures Pairs(s, p, m + 1)
    decreases m
  {
    if m > 0 {
      PairsAppend(s, p + 2, m - 1);
    }
  }

  /**
   * `MatchAt` is the greedy match: it captures the vowel after the most repetitions that let
   * the pattern succeed, and finds none exactly when the pattern cannot match at `p`.
   */
  lemma MatchAtIsGreedy(s: string, p: nat)
    ensures MatchAt(s, p).None? <==> forall m: nat :: !PatternAt(s, p, m)
    ensures MatchAt(s, p).Some? ==> exists m: nat :: Greedy(s, p, m) && MatchAt(s, p).value == p + 2 * m
  {
    var run := PairRun(s, p);
    if run >= 2 && p + 2 * run < |s| && s[p + 2 * run] !in Consonants {
      GreedyAtEndOfRun(s, p);
      assert MatchAt(s, p).value == p + 2 * (run - 1);
    } else if run >= 3 {
      GreedyInsideRun(s, p);
      assert MatchAt(s, p).value == p + 2 * (run - 2);
    } else {
      NoPatternAt(s, p);
    }
  }

  /** When a non-consonant follows a run of at least two pairs, the greedy match stops one pair short. */
  lemma GreedyAtEndOfRun(s: string, p: nat)
    requires PairRun(s, p) >= 2 && p + 2 * PairRun(s, p) < |s| && s[p + 2 * PairRun(s, p)] !in Consonants
    ensures Greedy(s, p, PairRun(s, p) - 1)
  {
    var run := PairRun(s, p);
    PatternAtEndOfRun(s, p, run - 1);
    forall m': nat | run - 1 < m'
      ensures !PatternAt(s, p, m')
    {
      if PatternAt(s, p, m') {
        PatternBelowRun(s, p, m');
      }
    }
  }

  /** Otherwise, a run of at least three pairs gives a greedy match two pairs short. */
  lemma GreedyInsideRun(s: string, p: nat)
    requires PairRun(s, p) >= 3 && !(p + 2 * PairRun(s, p) < |s| && s[p + 2 * PairRun(s, p)] !in Consonants)
    ensures Greedy(s, p, PairRun(s, p) - 2)
  {
    var run := PairRun(s, p);
    PatternInsideRun(s, p, run - 2);
    forall m': nat | run - 2 < m'
      ensures !PatternAt(s, p, m')
    {
      if PatternAt(s, p, m') {
        PatternBelowRun(s, p, m');
      }
    }
  }

  /** With no match found, no repetition count lets the pattern match. */
  lemma NoPatternAt(s: string, p: nat)
    requires PairRun(s, p) < 3 && !(PairRun(s, p) >= 2 && p + 2 * PairRun(s, p) < |s| && s[p + 2 * PairRun(s, p)] !in Consonants)
    ensures forall m: nat :: !PatternAt(s, p, m)
  {
    forall m: nat
      ensures !PatternAt(s, p, m)
    {
      NoPatternWith(s, p, m);
    }
  }

  lemma NoPatternWith(s: string, p: nat, m: nat)
    requires PairRun(s, p) < 3 && !(PairRun(s, p) >= 2 && p + 2 * PairRun(s, p) < |s| && s[p + 2 * PairRun(s, p)] !in Consonants)
    ensures !PatternAt(s, p, m)
  {
    if PatternAt(s, p, m) {
      PatternBelowRun(s, p, m);
    }
  }

  /** The captured position is a short vowel. */
  lemma MatchIsShortVowel(s: string, p: nat)
    requires MatchAt(s, p).Some?
    ensures MatchAt(s, p).value < |s| && s[MatchAt(s, p).value] in ShortVowels
  {
    MatchAtIsGreedy(s, p);
  }

  /** `Search` finds the leftmost start `q`, so nothing matches before the one it reports. */
  lemma {:induction false} SearchIsLeftmost(s: string, p: nat) returns (q: nat)
    requires Search(s, p).Some?
    ensures p <= q < |s| && MatchAt(s, q) == Search(s, p)
    ensures forall q' :: p <= q' < q ==> MatchAt(s, q').None?
    decreases |s| - p
  {
    assert p < |s|;
    var here := MatchAt(s, p);
    if here.Some? {
      assert Search(s, p) == here;
      q := p;
    } else {
      assert Search(s, p) == Search(s, p + 1);
      q := SearchIsLeftmost(s, p + 1);
      forall q' | p <= q' < q
        ensures MatchAt(s, q').None?
      {
        if q' == p {
          assert MatchAt(s, q') == here;
        }
      }
    }
  }

  /** What `re.search` reports is the position of a short vowel. */
  lemma SearchIsShortVowel(s: string)
    requires Search(s, 0).Some?
    ensures Search(s, 0).value < |s| && s[Search(s, 0).value] in ShortVowels
  {
    var q := SearchIsLeftmost(s, 0);
    MatchIsShortVowel(s, q);
  }

  // ---------------------------------------------------------------- the deletion

  /** Deletes character `g` of morpheme `x` or a later one, counting from morpheme `x` (grammar.py:461-469). */
  function DeleteFrom(ms: seq<Morpheme>, g: nat, x: nat): (r: seq<Morpheme>)
    requires x <= |ms|
    ensures SameShape(ms, r)
    ensures r[..x] == ms[..x]
    ensures forall y :: 0 <= y < |ms| && HasObject(ms[y].functions) ==> r[y] == ms[y]
    decreases |ms| - x
  {
    if x == |ms| then ms
    else if g < |ms[x].text| then
      if HasObject(ms[x].functions) then ms
      else SetText(ms, x, ms[x].text[..g] + ms[x].text[g + 1..])
    else
      var r := DeleteFrom(ms, g - |ms[x].text|, x + 1);
      assert r[..x] == r[..x + 1][..x] && ms[..x] == ms[..x + 1][..x];
      r
  }

  /** Character `g` lies in morpheme `x`. */
  lemma DeleteFromHere(ms: seq<Morpheme>, g: nat, x: nat)
    requires x < |ms| && g < |ms[x].text|
    ensures DeleteFrom(ms, g, x) ==
            if HasObject(ms[x].functions) then ms else SetText(ms, x, ms[x].text[..g] + ms[x].text[g + 1..])
  {
  }

  /** Character `g` lies past morpheme `x`. */
  lemma DeleteFromLater(ms: seq<Morpheme>, g: nat, x: nat)
    requires x < |ms| && |ms[x].text| <= g
    ensures DeleteFrom(ms, g, x) == DeleteFrom(ms, g - |ms[x].text|, x + 1)
  {
  }

  /** The whole pass: the pattern is searched in `text()`, the deletion counts morpheme texts. */
  function Syncopate(ms: seq<Morpheme>): seq<Morpheme> {
    match Search(Text(ms), 0)
    case None => ms
    case Some(g) => DeleteFrom(ms, g, 0)
  }

  /** Removes character `g` of `s`, or nothing when there is none. */
  function RemoveAt(s: string, g: nat): string {
    if g < |s| then s[..g] + s[g + 1..] else s
  }

  /** The joined texts lose at most the one character at `g`. */
  lemma {:induction false} DeleteFromConcat(ms: seq<Morpheme>, g: nat, x: nat)
    requires x <= |ms|
    ensures var r := DeleteFrom(ms, g, x);
            Concat(r[x..]) == Concat(ms[x..]) || Concat(r[x..]) == RemoveAt(Concat(ms[x..]), g)
    decreases |ms| - x, 1
  {
    if x < |ms| {
      if g < |ms[x].text| {
        if HasObject(ms[x].functions) {
          assert DeleteFrom(ms, g, x) == ms;
        } else {
          DeleteHereConcat(ms, g, x);
        }
      } else {
        DeleteLaterConcat(ms, g, x);
      }
    }
  }

  /** Deleting inside morpheme `x` removes that character from the joined texts. */
  lemma DeleteHereConcat(ms: seq<Morpheme>, g: nat, x: nat)
    requires x < |ms| && g < |ms[x].text| && !HasObject(ms[x].functions)
    ensures Concat(DeleteFrom(ms, g, x)[x..]) == RemoveAt(Concat(ms[x..]), g)
  {
    var t := ms[x].text;
    var r := SetText(ms, x, t[..g] + t[g + 1..]);
    assert DeleteFrom(ms, g, x) == r;
    ConcatFromIndex(ms, x);
    ConcatFromIndex(r, x);
    assert r[x + 1..] == ms[x + 1..];
    var rest := Concat(ms[x + 1..]);
    assert (t + rest)[..g] == t[..g];
    assert (t + rest)[g + 1..] == t[g + 1..] + rest;
  }

  /** Deleting past morpheme `x` keeps its text in front. */
  lemma {:induction false} DeleteLaterConcat(ms: seq<Morpheme>, g: nat, x: nat)
    requires x < |ms| && |ms[x].text| <= g
    ensures var r := DeleteFrom(ms, g, x);
            Concat(r[x..]) == Concat(ms[x..]) || Concat(r[x..]) == RemoveAt(Concat(ms[x..]), g)
    decreases |ms| - x, 0
  {
    var t := ms[x].text;
    DeleteFromConcat(ms, g - |t|, x + 1);
    var r := DeleteFrom(ms, g, x);
    assert r == DeleteFrom(ms, g - |t|, x + 1);
    ConcatFromIndex(ms, x);
    ConcatFromIndex(r, x);
    assert r[x] == ms[x];
    RemoveAfterPrefix(t, Concat(ms[x + 1..]), Concat(r[x + 1..]), g - |t|);
  }

  /** Removing a character past a prefix is removing it from the suffix. */
  lemma RemoveAfterPrefix(t: string, rest: string, rest': string, h: nat)
    requires rest' == rest || rest' == RemoveAt(rest, h)
    ensures t + rest' == t + rest || t + rest' == RemoveAt(t + rest, |t| + h)
  {
    if rest' != rest && h < |rest| {
      var g := |t| + h;
      assert (t + rest)[..g] == t + rest[..h];
      assert (t + rest)[g + 1..] == rest[h + 1..];
    }
  }

  lemma {:induction false} ConcatFromIndex(ms: seq<Morpheme>, x: nat)
    requires x < |ms|
    ensures Concat(ms[x..]) == ms[x].text + Concat(ms[x + 1..])
  {
    var rest := ms[x..];
    assert rest[0] == ms[x] && rest[1..] == ms[x + 1..];
  }

  /**
   * The pass deletes at most one character of the joined texts, the short vowel the pattern
   * captured, and never one inside a pronominal suffix; no morpheme appears or disappears.
   */
  lemma SyncopateEffect(ms: seq<Morpheme>)
    requires NoInfixes(ms)
    ensures var r := Syncopate(ms);
            SameShape(ms, r) &&
            (forall y :: 0 <= y < |ms| && HasObject(ms[y].functions) ==> r[y] == ms[y]) &&
            (Concat(r) == Concat(ms) ||
             (Search(Concat(ms), 0).Some? && Search(Concat(ms), 0).value < |Concat(ms)| && Concat(ms)[Search(Concat(ms), 0).value] in ShortVowels &&
              Concat(r) == RemoveAt(Concat(ms), Search(Concat(ms), 0).value))) &&
            (Search(Concat(ms), 0).None? ==> r == ms)
  {
    TextIsConcat(ms);
    var s := Concat(ms);
    if Search(s, 0).Some? {
      SearchIsShortVowel(s);
      DeleteFromWhole(ms, Search(s, 0).value);
    }
  }

  /**
   * Where `re.search` finds the vowel at `g` of the joined texts, and `g` falls in morpheme `x`,
   * the pass deletes exactly that letter from morpheme `x`, unless `x` is a pronominal suffix, in
   * which case the word is unchanged (grammar.py:459-468).
   */
  lemma SyncopateDeletesFound(ms: seq<Morpheme>, g: nat, x: nat)
    requires NoInfixes(ms) && Search(Concat(ms), 0) == Some(g)
    requires x < |ms| && |Concat(ms[..x])| <= g < |Concat(ms[..x + 1])|
    ensures HasObject(ms[x].functions) ==> Syncopate(ms) == ms
    ensures !HasObject(ms[x].functions) ==>
              Syncopate(ms) == SetText(ms, x, RemoveAt(ms[x].text, g - |Concat(ms[..x])|)) &&
              Concat(Syncopate(ms)) == RemoveAt(Concat(ms), g)
  {
    TextIsConcat(ms);
    assert Syncopate(ms) == DeleteFrom(ms, g, 0);
    ConcatPrefixStep(ms, x);
    var h := g - |Concat(ms[..x])|;
    DeleteFromReaches(ms, g, x);
    if !HasObject(ms[x].functions) {
      SetTextConcat(ms, x, h);
    }
  }

  /** Deleting letter `h` of morpheme `x` deletes it from the joined texts, counted from the start. */
  lemma SetTextConcat(ms: seq<Morpheme>, x: nat, h: nat)
    requires x < |ms| && h < |ms[x].text|
    ensures Concat(SetText(ms, x, RemoveAt(ms[x].text, h))) == RemoveAt(Concat(ms), |Concat(ms[..x])| + h)
  {
    var r := SetText(ms, x, RemoveAt(ms[x].text, h));
    ConcatSplit(ms, x);
    ConcatSplit(r, x);
    assert r[..x] == ms[..x] && r[x + 1..] == ms[x + 1..];
    RemoveInMiddle(Concat(ms[..x]), ms[x].text, Concat(ms[x + 1..]), h);
  }

  lemma RemoveInMiddle(a: string, t: string, b: string, h: nat)
    requires h < |t|
    ensures a + RemoveAt(t, h) + b == RemoveAt(a + t + b, |a| + h)
  {
    var g := |a| + h;
    assert (a + t + b)[..g] == a + t[..h];
    assert (a + t + b)[g + 1..] == t[h + 1..] + b;
  }

  /** The walk from morpheme 0 reaches morpheme `x` with `g` less the texts before it. */
  lemma {:induction false} DeleteFromReaches(ms: seq<Morpheme>, g: nat, x: nat)
    requires x <= |ms| && |Concat(ms[..x])| <= g
    ensures DeleteFrom(ms, g, 0) == DeleteFrom(ms, g - |Concat(ms[..x])|, x)
  {
    if x > 0 {
      ConcatPrefixStep(ms, x - 1);
      DeleteFromReaches(ms, g, x - 1);
      DeleteFromLater(ms, g - |Concat(ms[..x - 1])|, x - 1);
    }
  }

  lemma ConcatPrefixStep(ms: seq<Morpheme>, x: nat)
    requires x < |ms|
    ensures Concat(ms[..x + 1]) == Concat(ms[..x]) + ms[x].text
  {
    var p := ms[..x + 1];
    ConcatSplit(p, x);
    assert p[..x] == ms[..x] && p[x + 1..] == [];
  }

  lemma DeleteFromWhole(ms: seq<Morpheme>, g: nat)
    ensures var r := DeleteFrom(ms, g, 0);
            Concat(r) == Concat(ms) || Concat(r) == RemoveAt(Concat(ms), g)
  {
    DeleteFromConcat(ms, g, 0);
    var r := DeleteFrom(ms, g, 0);
    assert ms[0..] == ms && r[0..] == r;
  }
}
