/**
 * `apply_global_a_colouring` (grammar.py:297-310): a pharyngeal ʿ or ḥ anywhere in the word, or
 * a first radical `y`, turns every base `a` into `e` (ā into ē, â into ê), except in the
 * morphemes whose `a` belongs to an ending.
 */
module Colouring {

  import opened Alphabet
  import opened Morphemes

  /** The condition tested on morpheme `i` (grammar.py:299-302). */
  predicate Trigger(m: Morpheme) {
    'ʿ' in m.text || 'ḥ' in m.text || (m.text == "y" && Radical(1) in m.functions)
  }

  /** The morphemes the colouring skips (grammar.py:305-309). */
  predicate Excluded(m: Morpheme) {
    (m.text == "ā" && (m.functions == [PersonOf(Third), GenderOf(F), NumberOf(PL)] ||
                       m.functions == [PersonOf(Second), NumberOf(PL)])) ||
    m.functions == [LabelOf(Conjunction)] ||
    HasObject(m.functions) ||
    m.functions == [LabelOf(Ventive)]
  }

  function ColourMorpheme(m: Morpheme): Morpheme {
    if Excluded(m) then m else m.(text := ColourA(m.text))
  }

  /** The inner loop of grammar.py:303-310, run over every morpheme. */
  function ColourAll(ms: seq<Morpheme>): (r: seq<Morpheme>)
    ensures |r| == |ms| && forall j :: 0 <= j < |ms| ==> r[j] == ColourMorpheme(ms[j])
  {
    seq(|ms|, j requires 0 <= j < |ms| => ColourMorpheme(ms[j]))
  }

  /** The loop body for morpheme `i`. */
  function ColourStep(ms: seq<Morpheme>, i: nat): seq<Morpheme>
    requires i < |ms|
  {
    if Trigger(ms[i]) then ColourAll(ms) else ms
  }

  /** The outer loop from morpheme `i` on. */
  function ColourFrom(ms: seq<Morpheme>, i: nat): seq<Morpheme>
    decreases |ms| - i
  {
    if i >= |ms| then ms else ColourFrom(ColourStep(ms, i), i + 1)
  }

  predicate TriggeredFrom(ms: seq<Morpheme>, i: nat) {
    exists j :: i <= j < |ms| && Trigger(ms[j])
  }

  predicate Triggered(ms: seq<Morpheme>) {
    TriggeredFrom(ms, 0)
  }

  /** What the pass does, stated as a whole: colour everything once, if anything triggers. */
  function GlobalColouring(ms: seq<Morpheme>): seq<Morpheme> {
    if Triggered(ms) then ColourAll(ms) else ms
  }

  // ---------------------------------------------------------------- colouring one morpheme

  /** Colouring only touches the a-vowels, so it neither creates nor removes a trigger. */
  lemma ColourKeepsTrigger(m: Morpheme)
    ensures Trigger(ColourMorpheme(m)) == Trigger(m)
    ensures Excluded(ColourMorpheme(m)) == Excluded(m)
  {
    if !Excluded(m) {
      var t := ColourA(m.text);
      ColourKeepsLetter(m.text, 'ʿ');
      ColourKeepsLetter(m.text, 'ḥ');
      ColourKeepsLetter(m.text, 'y');
      if t == "y" {
        assert ColourChar(m.text[0]) == 'y';
      }
    }
  }

  /** A letter that is neither coloured nor a colouring is in the coloured text exactly when it was before. */
  lemma ColourKeepsLetter(s: string, c: char)
    requires c !in BaseA && c !in "eēê"
    ensures c in ColourA(s) <==> c in s
  {
    var t := ColourA(s);
    if c in t {
      var k :| 0 <= k < |t| && t[k] == c;
      assert ColourChar(s[k]) == c;
    }
    if c in s {
      var k :| 0 <= k < |s| && s[k] == c;
      assert t[k] == c;
    }
  }


  lemma ColourMorphemeIdempotent(m: Morpheme)
    ensures ColourMorpheme(ColourMorpheme(m)) == ColourMorpheme(m)
  {
    ColourKeepsTrigger(m);
    ColourAIdempotent(m.text);
  }

  lemma ColourAllIdempotent(ms: seq<Morpheme>)
    ensures ColourAll(ColourAll(ms)) == ColourAll(ms)
    ensures Triggered(ColourAll(ms)) == Triggered(ms)
  {
    forall j | 0 <= j < |ms|
      ensures ColourAll(ColourAll(ms))[j] == ColourAll(ms)[j]
      ensures Trigger(ColourAll(ms)[j]) == Trigger(ms[j])
    {
      ColourMorphemeIdempotent(ms[j]);
      ColourKeepsTrigger(ms[j]);
    }
  }

  // ---------------------------------------------------------------- the loop is the global colouring

  /** Once coloured, the remaining iterations change nothing. */
  lemma {:induction false} ColourFromColoured(ms: seq<Morpheme>, i: nat)
    ensures ColourFrom(ColourAll(ms), i) == ColourAll(ms)
    decreases |ms| - i
  {
    ColourAllIdempotent(ms);
    if i < |ms| {
      ColourFromColoured(ms, i + 1);
    }
  }

  /** The loop from `i` colours the word iff a trigger lies at `i` or later. */
  lemma {:induction false} ColourFromMeaning(ms: seq<Morpheme>, i: nat)
    ensures ColourFrom(ms, i) == (if TriggeredFrom(ms, i) then ColourAll(ms) else ms)
    decreases |ms| - i
  {
    if i >= |ms| {
      assert !TriggeredFrom(ms, i);
    } else if Trigger(ms[i]) {
      assert ColourFrom(ms, i) == ColourFrom(ColourAll(ms), i + 1);
      ColourFromColoured(ms, i + 1);
      assert TriggeredFrom(ms, i);
    } else {
      assert ColourFrom(ms, i) == ColourFrom(ms, i + 1);
      ColourFromMeaning(ms, i + 1);
      assert TriggeredFrom(ms, i) == TriggeredFrom(ms, i + 1) by {
        if TriggeredFrom(ms, i) {
          var j :| i <= j < |ms| && Trigger(ms[j]);
          assert j != i;
        }
      }
    }
  }

  /** The index loop of grammar.py:298-310 computes the global colouring. */
  lemma ColourLoopIsGlobal(ms: seq<Morpheme>)
    ensures ColourFrom(ms, 0) == GlobalColouring(ms)
  {
    ColourFromMeaning(ms, 0);
  }

  // ---------------------------------------------------------------- properties of the pass

  /** Without a pharyngeal or a first radical `y`, nothing changes. */
  lemma ColouringWithoutTrigger(ms: seq<Morpheme>)
    requires forall j :: 0 <= j < |ms| ==> !Trigger(ms[j])
    ensures ColourFrom(ms, 0) == ms
  {
    ColourLoopIsGlobal(ms);
  }

  /**
   * Once triggered, no morpheme outside the exclusions keeps a base `a`; the excluded
   * morphemes are untouched, and no morpheme gains or loses a feature or a character.
   */
  lemma ColouringEffect(ms: seq<Morpheme>)
    requires Triggered(ms)
    ensures |ColourFrom(ms, 0)| == |ms|
    ensures forall j, c :: 0 <= j < |ms| && !Excluded(ms[j]) && c in ColourFrom(ms, 0)[j].text ==> c !in BaseA
    ensures forall j :: 0 <= j < |ms| && Excluded(ms[j]) ==> ColourFrom(ms, 0)[j] == ms[j]
    ensures SameShape(ms, ColourFrom(ms, 0))
    ensures forall j :: 0 <= j < |ms| ==> |ColourFrom(ms, 0)[j].text| == |ms[j].text|
  {
    ColourLoopIsGlobal(ms);
    forall j | 0 <= j < |ms| && !Excluded(ms[j])
      ensures forall c :: c in ColourFrom(ms, 0)[j].text ==> c !in BaseA
    {
      ColourAMeaning(ms[j].text);
    }
  }

  /** Running the pass a second time changes nothing. */
  lemma ColouringIdempotent(ms: seq<Morpheme>)
    ensures ColourFrom(ColourFrom(ms, 0), 0) == ColourFrom(ms, 0)
  {
    ColourLoopIsGlobal(ms);
    ColourLoopIsGlobal(ColourFrom(ms, 0));
    ColourAllIdempotent(ms);
  }
}
