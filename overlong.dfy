/**
 * `avoid_overlong_consonant_clusters` (grammar.py:284-295): a `tan` morpheme before two
 * consonants loses its `n`, or, when the first of them is weak, the next overt morpheme is
 * dropped instead.
 */
module Overlong {

  import opened Alphabet
  import opened Morphemes

  /**
   * The only edits the pass makes to a morpheme text: `tan` becomes `ta`, or a text starting
   * with a weak consonant is dropped.
   */
  predicate OverlongEdit(before: string, after: string) {
    after == before || (before == "tan" && after == "ta") || (StartsWith(before, WeakConsonants) && after == [])
  }

  /** The next two overt texts after morpheme `i`, joined (grammar.py:287-289). */
  function Lookahead(ms: seq<Morpheme>, i: nat): (look: string)
    ensures |look| > 0 <==> NextOvert(ms, i).0 < |ms|
    ensures |look| > 0 ==> look[0] == ms[NextOvert(ms, i).0].text[0]
  {
    var (k, next) := NextOvert(ms, i);
    next + NextOvert(ms, k).1
  }

  /** A strong consonant followed by a consonant (grammar.py:290-291). */
  predicate StrongCluster(look: string) {
    StartsWith(look, StrongConsonants) && StartsWith(look[1..], Consonants)
  }

  /** A weak consonant followed by a consonant (grammar.py:293-294). */
  predicate WeakCluster(look: string) {
    StartsWith(look, WeakConsonants) && StartsWith(look[1..], Consonants)
  }

  /**
   * The rewrite of the loop body for morpheme `i` (grammar.py:286-295): only a `tan` morpheme
   * acts. Before a strong consonant cluster it becomes `ta`; otherwise, before a cluster starting
   * with a weak consonant, the next overt morpheme is dropped. Nothing else changes.
   */
  function OverlongStep(ms: seq<Morpheme>, i: nat): (r: seq<Morpheme>)
    requires i < |ms|
    ensures SameShape(ms, r)
    ensures forall x :: 0 <= x < |ms| ==> OverlongEdit(ms[x].text, r[x].text)
    ensures ms[i].text != "tan" ==> r == ms
    ensures forall x :: 0 <= x < |ms| && x != i && x != NextOvert(ms, i).0 ==> r[x] == ms[x]
    ensures r[i].text != ms[i].text <==> ms[i].text == "tan" && StrongCluster(Lookahead(ms, i))
    ensures var k := NextOvert(ms, i).0;
            k < |ms| ==>
              (r[k].text != ms[k].text <==>
                 ms[i].text == "tan" && !StrongCluster(Lookahead(ms, i)) && WeakCluster(Lookahead(ms, i)))
  {
    if ms[i].text != "tan" then ms
    else
      var (k, next) := NextOvert(ms, i);
      var look := Lookahead(ms, i);
      if StrongCluster(look) then SetText(ms, i, "ta")
      else if WeakCluster(look) then SetText(ms, k, "")
      else ms
  }

  /** The loop from morpheme `i` on. */
  function OverlongFrom(ms: seq<Morpheme>, i: nat): (r: seq<Morpheme>)
    ensures SameShape(ms, r)
    ensures forall x :: 0 <= x < |ms| ==> OverlongEdit(ms[x].text, r[x].text)
    decreases |ms| - i
  {
    if i >= |ms| then ms else OverlongFrom(OverlongStep(ms, i), i + 1)
  }

  /** The loop from `i` on leaves the earlier morphemes alone. */
  lemma {:induction false} OverlongKeepsEarlier(ms: seq<Morpheme>, i: nat, x: nat)
    requires x < i && x < |ms|
    ensures OverlongFrom(ms, i)[x] == ms[x]
    decreases |ms| - i
  {
    if i < |ms| {
      OverlongKeepsEarlier(OverlongStep(ms, i), i + 1, x);
    }
  }

  /** Steps before the first `tan` change nothing. */
  lemma {:induction false} OverlongUpToFirstTan(ms: seq<Morpheme>, i: nat, j: nat)
    requires i <= j <= |ms| && forall x :: i <= x < j ==> ms[x].text != "tan"
    ensures OverlongFrom(ms, i) == OverlongFrom(ms, j)
    decreases j - i
  {
    if i < j {
      assert OverlongStep(ms, i) == ms;
      OverlongUpToFirstTan(ms, i + 1, j);
    }
  }

  /**
   * The first `tan` of the word before a strong consonant cluster does lose its `n`: the pass
   * leaves `ta` there.
   */
  lemma FirstTanShortened(ms: seq<Morpheme>, i: nat)
    requires i < |ms| && ms[i].text == "tan" && StrongCluster(Lookahead(ms, i))
    requires forall x :: 0 <= x < i ==> ms[x].text != "tan"
    ensures AvoidOverlongClusters(ms)[i].text == "ta"
  {
    OverlongUpToFirstTan(ms, 0, i);
    OverlongKeepsEarlier(OverlongStep(ms, i), i + 1, i);
  }

  /**
   * Before a cluster starting with a weak consonant, the first `tan` of the word stays and the
   * next overt morpheme is dropped instead.
   */
  lemma FirstTanDropsWeak(ms: seq<Morpheme>, i: nat)
    requires i < |ms| && ms[i].text == "tan" && !StrongCluster(Lookahead(ms, i)) && WeakCluster(Lookahead(ms, i))
    requires forall x :: 0 <= x < i ==> ms[x].text != "tan"
    ensures var k := NextOvert(ms, i).0;
            k < |ms| && AvoidOverlongClusters(ms)[i].text == "tan" && AvoidOverlongClusters(ms)[k].text == []
  {
    var ms1 := OverlongStep(ms, i);
    var k := NextOvert(ms, i).0;
    OverlongUpToFirstTan(ms, 0, i);
    OverlongKeepsEarlier(ms1, i + 1, i);
  }

  /** The whole pass. */
  function AvoidOverlongClusters(ms: seq<Morpheme>): seq<Morpheme> {
    OverlongFrom(ms, 0)
  }

  /** Without a `tan` morpheme the pass changes nothing. */
  lemma {:induction false} OverlongWithoutTan(ms: seq<Morpheme>, i: nat)
    requires forall x :: 0 <= x < |ms| ==> ms[x].text != "tan"
    ensures OverlongFrom(ms, i) == ms
    decreases |ms| - i
  {
    if i < |ms| {
      OverlongWithoutTan(ms, i + 1);
    }
  }

  /** The pass never lengthens a morpheme, so never the word. */
  lemma {:induction false} OverlongShortens(ms: seq<Morpheme>)
    ensures |Concat(AvoidOverlongClusters(ms))| <= |Concat(ms)|
  {
    ConcatShorter(ms, AvoidOverlongClusters(ms));
  }

  lemma {:induction false} ConcatShorter(a: seq<Morpheme>, b: seq<Morpheme>)
    requires |a| == |b| && forall x :: 0 <= x < |a| ==> |b[x].text| <= |a[x].text|
    ensures |Concat(b)| <= |Concat(a)|
  {
    if a != [] {
      ConcatShorter(a[1..], b[1..]);
    }
  }
}
