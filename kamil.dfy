/**
 * `KamilDecomposition` (grammar.py:212-523): a root and a list of morphemes that the constructor
 * rewrites in place, pass after pass. Each pass is a method looping over `morphemes` as the source
 * does, proved to compute the pass function of its own module.
 */
module Kamil {

  import opened Wrappers
  import opened Alphabet
  import opened Morphemes
  import Overlong
  import Colouring
  import WeakConsonants
  import Contraction
  import Lengthening
  import Assimilation
  import Syncope
  import RootMerge
  import Cascade

  class KamilDecomposition {
    const root: string
    const reconstructed: seq<Morpheme>
    var morphemes: seq<Morpheme>
    var functions: set<Feature>

    /** The copies and the feature set of grammar.py:219-222, before any pass runs. */
    constructor (root: string, ms: seq<Morpheme>)
      ensures this.root == root && reconstructed == Cascade.Copies(ms) && morphemes == reconstructed
      ensures functions == FunctionsOf(morphemes)
    {
      this.root := root;
      reconstructed := Cascade.Copies(ms);
      morphemes := Cascade.Copies(ms);
      functions := FunctionsOf(Cascade.Copies(ms));
    }

    /** `text` (grammar.py:261-262). */
    function SurfaceText(): string
      reads this
    {
      Text(morphemes)
    }

    /** `next_overt_morpheme` (grammar.py:264-272). */
    method NextOvertMorpheme(i: nat) returns (k: nat, next: string)
      ensures (k, next) == NextOvert(morphemes, i)
    {
      next := [];
      k := i + 1;
      while k < |morphemes|
        invariant i < k && next == []
        invariant NextOvert(morphemes, i) == NextOvert(morphemes, k - 1)
        decreases |morphemes| - k
      {
        next := morphemes[k].text;
        if next != [] {
          return;
        }
        k := k + 1;
      }
    }

    /** `previous_overt_morpheme` (grammar.py:274-282). */
    method PreviousOvertMorpheme(i: nat) returns (j: int, previous: string)
      requires i <= |morphemes|
      ensures (j, previous) == PrevOvert(morphemes, i)
    {
      previous := [];
      j := i - 1;
      while j >= 0
        invariant -1 <= j < i && previous == []
        invariant PrevOvert(morphemes, i) == PrevOvert(morphemes, j + 1)
      {
        previous := morphemes[j].text;
        if previous != [] {
          return;
        }
        j := j - 1;
      }
    }

    /** `avoid_overlong_consonant_clusters` (grammar.py:284-295). */
    method AvoidOverlongConsonantClusters()
      modifies this`morphemes
      ensures morphemes == Overlong.AvoidOverlongClusters(old(morphemes))
    {
      var i := 0;
      while i < |morphemes|
        invariant |morphemes| == |old(morphemes)| && i <= |morphemes|
        invariant Overlong.OverlongFrom(morphemes, i) == Overlong.AvoidOverlongClusters(old(morphemes))
        decreases |morphemes| - i
      {
        if morphemes[i].text == "tan" {
          var k, next := NextOvertMorpheme(i);
          var _, next2 := NextOvertMorpheme(k);
          var lookahead := next + next2;
          if StartsWith(lookahead, StrongConsonants) && StartsWith(lookahead[1..], Consonants) {
            morphemes := SetText(morphemes, i, "ta");
          } else if StartsWith(lookahead, Alphabet.WeakConsonants) && StartsWith(lookahead[1..], Consonants) {
            morphemes := SetText(morphemes, k, "");
          }
        }
        i := i + 1;
      }
    }

    /** `apply_global_a_colouring` (grammar.py:297-310). */
    method ApplyGlobalAColouring()
      modifies this`morphemes
      ensures morphemes == Colouring.ColourFrom(old(morphemes), 0)
    {
      var i := 0;
      while i < |morphemes|
        invariant |morphemes| == |old(morphemes)| && i <= |morphemes|
        invariant Colouring.ColourFrom(morphemes, i) == Colouring.ColourFrom(old(morphemes), 0)
        decreases |morphemes| - i
      {
        if Colouring.Trigger(morphemes[i]) {
          ColourEveryMorpheme();
        }
        i := i + 1;
      }
    }

    /** The inner loop of grammar.py:303-310: every morpheme outside the exclusions is coloured. */
    method ColourEveryMorpheme()
      modifies this`morphemes
      ensures morphemes == Colouring.ColourAll(old(morphemes))
    {
      var x := 0;
      while x < |morphemes|
        invariant |morphemes| == |old(morphemes)| && x <= |morphemes|
        invariant forall y :: 0 <= y < x ==> morphemes[y] == Colouring.ColourMorpheme(old(morphemes)[y])
        invariant forall y :: x <= y < |morphemes| ==> morphemes[y] == old(morphemes)[y]
      {
        if !Colouring.Excluded(morphemes[x]) {
          morphemes := SetText(morphemes, x, ColourA(morphemes[x].text));
        }
        x := x + 1;
      }
    }

    /** `lose_consonants` (grammar.py:312-403): the loop, with the body of `WeakConsonants.LoseStep`. */
    method LoseConsonants() returns (r: Result<(), CascadeError>)
      modifies this`morphemes
      ensures var spec := WeakConsonants.LoseConsonants(old(morphemes), root, functions);
              r.Failure? <==> spec.Failure?
      ensures r.Failure? ==> r.error == WeakConsonants.LoseConsonants(old(morphemes), root, functions).error
      ensures r.Success? ==> morphemes == WeakConsonants.LoseConsonants(old(morphemes), root, functions).value
    {
      ghost var spec := WeakConsonants.LoseConsonants(morphemes, root, functions);
      var i := 0;
      while i < |morphemes|
        invariant i <= |morphemes|
        invariant WeakConsonants.LoseFrom(morphemes, i, root, functions) == spec
        decreases |morphemes| - i
      {
        var step := WeakConsonants.LoseStep(morphemes, i, root, functions);
        WeakConsonants.LoseFromStep(morphemes, i, root, functions, step);
        if step.Failure? {
          return Failure(step.error);
        }
        morphemes := step.value;
        i := i + 1;
      }
      return Success(());
    }

    /** `contract_vowels` (grammar.py:471-488). */
    method ContractVowels()
      modifies this`morphemes
      ensures morphemes == Contraction.ContractVowelsPass(old(morphemes))
    {
      var i := 0;
      while i < |morphemes|
        invariant i <= |morphemes|
        invariant Contraction.ContractFrom(morphemes, i) == Contraction.ContractVowelsPass(old(morphemes))
        decreases |morphemes| - i
      {
        var k, next := NextOvertMorpheme(i);
        var t := morphemes[i].text;
        if EndsWith(t, Vowels) && StartsWith(next, Vowels) {
          var v1, v2 := t[|t| - 1], next[0];
          var contraction := Alphabet.ContractVowels(v1, v2);
          if contraction != [v1, v2] {
            MergeMorphemes(i, k, contraction);
          }
        }
        i := i + 1;
      }
    }

    /**
     * Morpheme `i` takes the contracted text and the features of morphemes `i + 1` to `k` it
     * lacks, and those morphemes are popped, last first (grammar.py:479-487).
     */
    method MergeMorphemes(i: nat, k: nat, contraction: string)
      requires i < k < |morphemes|
      modifies this`morphemes
      ensures morphemes == Contraction.Merge(old(morphemes), i, k, contraction)
    {
      var m := morphemes[i];
      var fs := AbsorbedFunctions(morphemes, i, k);
      morphemes := morphemes[i := Morpheme(DropLast(m.text) + contraction + DropFirst(morphemes[k].text), fs, m.infixes)];
      PopAfter(i, k);
      assert morphemes == old(morphemes)[..i] + [Contraction.Merged(old(morphemes), i, k, contraction)] +
                          old(morphemes)[k + 1..];
    }

    /** The features of morpheme `i` and, appended, those of morphemes `i + 1` to `k` it lacks. */
    static method AbsorbedFunctions(ms: seq<Morpheme>, i: nat, k: nat) returns (fs: seq<Feature>)
      requires i < k < |ms|
      ensures fs == AppendNew(ms[i].functions, Flatten(ms[i + 1..k + 1]))
    {
      fs := ms[i].functions;
      var l := i + 1;
      assert ms[i + 1..l] == [];
      while l <= k
        invariant i + 1 <= l <= k + 1
        invariant fs == AppendNew(ms[i].functions, Flatten(ms[i + 1..l]))
      {
        Contraction.AbsorbNext(ms, i, l);
        fs := AbsorbFunctions(fs, ms[l].functions);
        l := l + 1;
      }
      assert l == k + 1;
    }

    /** `while k > i: self.morphemes.pop(k); k -= 1` (grammar.py:485-487). */
    method PopAfter(i: nat, k: nat)
      requires i < k < |morphemes|
      modifies this`morphemes
      ensures morphemes == old(morphemes)[..i + 1] + old(morphemes)[k + 1..]
    {
      var n := k;
      while n > i
        invariant i <= n <= k
        invariant morphemes == old(morphemes)[..n + 1] + old(morphemes)[k + 1..]
      {
        morphemes := morphemes[..n] + morphemes[n + 1..];
        n := n - 1;
      }
    }

    /** The inner loop of grammar.py:482-484: the features of `gs` that `fs` lacks, appended. */
    static method AbsorbFunctions(fs: seq<Feature>, gs: seq<Feature>) returns (r: seq<Feature>)
      ensures r == AppendNew(fs, gs)
    {
      r := fs;
      var y := 0;
      while y < |gs|
        invariant y <= |gs|
        invariant r == AppendNew(fs, gs[..y])
      {
        AppendNewConcat(fs, gs[..y], [gs[y]]);
        assert gs[..y + 1] == gs[..y] + [gs[y]];
        if !Contains(r, gs[y]) {
          r := r + [gs[y]];
        }
        y := y + 1;
      }
      assert gs[..y] == gs;
    }

    /** `lengthen_before_suffixes` (grammar.py:490-495). */
    method LengthenBeforeSuffixes()
      modifies this`morphemes
      ensures morphemes == Lengthening.LengthenBeforeSuffixes(old(morphemes))
    {
      var i := 0;
      while i < |morphemes|
        invariant |morphemes| == |old(morphemes)| && i <= |morphemes|
        invariant Lengthening.LengthenFrom(morphemes, i) == Lengthening.LengthenBeforeSuffixes(old(morphemes))
        decreases |morphemes| - i
      {
        LengthenBefore(i);
        i := i + 1;
      }
    }

    /** The loop body of grammar.py:491-495 for morpheme `i`. */
    method LengthenBefore(i: nat)
      requires i < |morphemes|
      modifies this`morphemes
      ensures morphemes == Lengthening.LengthenStep(old(morphemes), i)
    {
      var m := morphemes[i];
      if LabelOf(Conjunction) in m.functions || HasObject(m.functions) {
        var k, previous := PreviousOvertMorpheme(i);
        if EndsWith(previous, ShortVowels) {
          morphemes := SetText(morphemes, k, Lengthen(morphemes[k].text));
        }
      }
    }

    /** `assimilate_t` (grammar.py:426-434). */
    method AssimilateT()
      modifies this`morphemes
      ensures morphemes == Assimilation.AssimilateT(old(morphemes))
    {
      var i := 0;
      while i < |morphemes|
        invariant |morphemes| == |old(morphemes)| && i <= |morphemes|
        invariant Assimilation.AssimilateTFrom(morphemes, i) == Assimilation.AssimilateT(old(morphemes))
        decreases |morphemes| - i
      {
        AssimilateTAt(i);
        i := i + 1;
      }
    }

    /** The loop body of grammar.py:428-434 for morpheme `i`. */
    method AssimilateTAt(i: nat)
      requires i < |morphemes|
      modifies this`morphemes
      ensures morphemes == Assimilation.AssimilateTStep(old(morphemes), i)
    {
      var _, previous := PreviousOvertMorpheme(i);
      var t := morphemes[i].text;
      if IsTInfix(morphemes[i].functions) && StartsWith(t, "t") && EndsWith(previous, "dṭsṣ") {
        morphemes := SetText(morphemes, i, [previous[|previous| - 1]] + t[1..]);
      }
    }

    /** `assimilate_object_š` (grammar.py:436-444). */
    method AssimilateObjectSh()
      modifies this`morphemes
      ensures morphemes == Assimilation.AssimilateObjectSh(old(morphemes))
    {
      var i := 0;
      while i < |morphemes|
        invariant |morphemes| == |old(morphemes)| && i <= |morphemes|
        invariant Assimilation.AssimilateObjectFrom(morphemes, i) == Assimilation.AssimilateObjectSh(old(morphemes))
        decreases |morphemes| - i
      {
        AssimilateObjectShAt(i);
        i := i + 1;
      }
    }

    /** The loop body of grammar.py:438-444 for morpheme `i`. */
    method AssimilateObjectShAt(i: nat)
      requires i < |morphemes|
      modifies this`morphemes
      ensures morphemes == Assimilation.AssimilateObjectStep(old(morphemes), i)
    {
      var j, previous := PreviousOvertMorpheme(i);
      if HasObject(morphemes[i].functions) && StartsWith(morphemes[i].text, "š") && EndsWith(previous, "dtṭsṣzš") {
        morphemes := SetText(morphemes, j, DropLast(morphemes[j].text) + "s");
        morphemes := SetText(morphemes, i, "s" + DropFirst(morphemes[i].text));
      }
    }

    /** `assimilate_b` (grammar.py:418-424). */
    method AssimilateB()
      modifies this`morphemes
      ensures morphemes == Assimilation.AssimilateB(old(morphemes))
    {
      var i := 0;
      while i < |morphemes|
        invariant |morphemes| == |old(morphemes)| && i <= |morphemes|
        invariant Assimilation.AssimilateBFrom(morphemes, i) == Assimilation.AssimilateB(old(morphemes))
        decreases |morphemes| - i
      {
        var _, next := NextOvertMorpheme(i);
        var t := morphemes[i].text;
        if EndsWith(t, "b") && StartsWith(next, "m") {
          morphemes := SetText(morphemes, i, DropLast(t) + [next[0]]);
        }
        i := i + 1;
      }
    }

    /** `assimilate_ventive_dative_m` (grammar.py:446-454). */
    method AssimilateVentiveDativeM()
      modifies this`morphemes
      ensures morphemes == Assimilation.AssimilateVentiveDativeM(old(morphemes))
    {
      var i := 0;
      while i < |morphemes|
        invariant |morphemes| == |old(morphemes)| && i <= |morphemes|
        invariant Assimilation.AssimilateMFrom(morphemes, i) == Assimilation.AssimilateVentiveDativeM(old(morphemes))
        decreases |morphemes| - i
      {
        AssimilateMAt(i);
        i := i + 1;
      }
    }

    /** The loop body of grammar.py:448-454 for morpheme `i`. */
    method AssimilateMAt(i: nat)
      requires i < |morphemes|
      modifies this`morphemes
      ensures morphemes == Assimilation.AssimilateMStep(old(morphemes), i)
    {
      var _, next := NextOvertMorpheme(i);
      var m := morphemes[i];
      if (LabelOf(Ventive) in m.functions || HasIndirectObject(m.functions)) &&
         EndsWith(m.text, "m") && StartsWith(next, Consonants) {
        morphemes := SetText(morphemes, i, DropLast(m.text) + [next[0]]);
      }
    }

    /** `assimilate_n` (grammar.py:405-416), reading the feature set of line 222. */
    method AssimilateN()
      modifies this`morphemes
      ensures morphemes == Assimilation.AssimilateN(old(morphemes), functions)
    {
      var i := 0;
      while i < |morphemes|
        invariant |morphemes| == |old(morphemes)| && i <= |morphemes|
        invariant Assimilation.AssimilateNFrom(morphemes, i, functions) ==
                  Assimilation.AssimilateN(old(morphemes), functions)
        decreases |morphemes| - i
      {
        AssimilateNAt(i);
        i := i + 1;
      }
    }

    /** The loop body of grammar.py:407-416 for morpheme `i`. */
    method AssimilateNAt(i: nat)
      requires i < |morphemes|
      modifies this`morphemes
      ensures morphemes == Assimilation.AssimilateNStep(old(morphemes), i, functions)
    {
      var k, next := NextOvertMorpheme(i);
      var t := morphemes[i].text;
      if EndsWith(t, "n") && StartsWith(next, Consonants) &&
         !(Radical(1) in morphemes[i].functions && Radical(2) in morphemes[k].functions &&
           LabelOf(Passive) in functions && (LabelOf(Tan) in functions || LabelOf(T) in functions)) {
        morphemes := SetText(morphemes, i, DropLast(t) + [next[0]]);
      }
    }

    /** `syncopate_vowels` (grammar.py:456-469). */
    method SyncopateVowels()
      modifies this`morphemes
      ensures morphemes == Syncope.Syncopate(old(morphemes))
    {
      var found := Syncope.Search(SurfaceText(), 0);
      if found.None? {
        return;
      }
      var g := found.value;
      ghost var spec := Syncope.DeleteFrom(morphemes, g, 0);
      var i := 0;
      var x := 0;
      while x < |morphemes|
        invariant x <= |morphemes| && morphemes == old(morphemes) && i <= g
        invariant Syncope.DeleteFrom(morphemes, g - i, x) == spec
      {
        var done;
        i, done := SyncopateIn(x, i, g);
        if done {
          return;
        }
        x := x + 1;
      }
    }

    /**
     * The inner loop of `syncopate_vowels` over the characters of morpheme `x`, `i` counting
     * characters of `text()`: when it reaches `g` the character goes, unless the morpheme
     * carries an object.
     */
    method SyncopateIn(x: nat, i: nat, g: nat) returns (next: nat, done: bool)
      requires x < |morphemes| && i <= g
      modifies this`morphemes
      ensures done <==> g - i < |old(morphemes)[x].text|
      ensures done ==> morphemes == Syncope.DeleteFrom(old(morphemes), g - i, x)
      ensures !done ==> morphemes == old(morphemes) && next == i + |morphemes[x].text| <= g &&
                        Syncope.DeleteFrom(morphemes, g - i, x) == Syncope.DeleteFrom(morphemes, g - next, x + 1)
    {
      var m := morphemes[x];
      next := i;
      var l := 0;
      while l < |m.text|
        invariant l <= |m.text| && next == i + l <= g
      {
        if next == g {
          Syncope.DeleteFromHere(morphemes, g - i, x);
          if HasObject(m.functions) {
            return next, true;
          }
          morphemes := SetText(morphemes, x, m.text[..l] + m.text[l + 1..]);
          return next, true;
        }
        next := next + 1;
        l := l + 1;
      }
      Syncope.DeleteFromLater(morphemes, g - i, x);
      done := false;
    }

    /** `merge_root_morphemes` (grammar.py:497-523). */
    method MergeRootMorphemes() returns (r: Result<(), CascadeError>)
      modifies this`morphemes
      ensures r.Success? <==> RootMerge.MergeRoot(old(morphemes), root).Success?
      ensures r.Failure? ==> r.error == RootMerge.MergeRoot(old(morphemes), root).error
      ensures r.Success? ==> morphemes == RootMerge.MergeRoot(old(morphemes), root).value
    {
      var st := ScanRoot();
      assert RootMerge.MergeRoot(morphemes, root) == RootMerge.MergeScanned(morphemes, st);
      if st.end.None? || st.end.value == 0 {
        return Failure(NoThirdRadical);
      }
      var merged := RootMerge.RootMorpheme(st);
      if merged.Failure? {
        return Failure(merged.error);
      }
      var s := if st.start.Some? then st.start.value else |morphemes|;
      morphemes := morphemes[..s] + [merged.value] + morphemes[st.end.value + 1..];
      return Success(());
    }

    /** The loop of grammar.py:503-517; `st` holds its local variables. */
    method ScanRoot() returns (st: RootMerge.RootScan)
      ensures st == RootMerge.ScanTo(morphemes, root, |morphemes|)
    {
      st := RootMerge.RootScan([], [Root(root)], None, None, []);
      var i := 0;
      while i < |morphemes|
        invariant i <= |morphemes| && st == RootMerge.ScanTo(morphemes, root, i)
      {
        st := ScanMorpheme(i, st);
        i := i + 1;
      }
    }

    /** The loop body of grammar.py:503-517 for morpheme `i`. */
    method ScanMorpheme(i: nat, st: RootMerge.RootScan) returns (r: RootMerge.RootScan)
      requires i < |morphemes|
      ensures r == RootMerge.ScanStep(morphemes, i, st)
    {
      var m := morphemes[i];
      if st.start.Some? && IsTInfix(m.functions) {
        return st.(infixes := st.infixes + [Infix(|st.text|, Plain(m.text, RootMerge.NonRadicals(m.functions)))],
                   functions := st.functions + RootMerge.Radicals(m.functions));
      }
      r := st;
      if Radical(1) in m.functions {
        r := r.(start := Some(i));
      }
      if r.start.Some? && r.end.None? {
        var fs := AbsorbFunctions(r.functions, m.functions);
        r := r.(text := r.text + m.text, functions := fs);
      }
      if Radical(3) in m.functions {
        r := r.(end := Some(i));
      }
    }

    /** The twelve passes of grammar.py:223-234, then the feature set of line 235. */
    method Rewrite() returns (r: Result<(), CascadeError>)
      modifies this`morphemes, this`functions
      ensures var spec := Cascade.Passes(root, old(morphemes), old(functions));
              (r.Success? <==> spec.Success?) && (r.Failure? ==> r.error == spec.error) &&
              (r.Success? ==> morphemes == spec.value && functions == FunctionsOf(morphemes))
    {
      AvoidOverlongConsonantClusters();
      ApplyGlobalAColouring();
      ghost var m2 := morphemes;
      var lost := LoseConsonants();
      if lost.Failure? {
        return Failure(lost.error);
      }
      ghost var m3 := morphemes;
      PassesAfterLoss();
      assert Cascade.BeforeMerge(root, old(morphemes), functions) == Success(morphemes) by {
        assert WeakConsonants.LoseConsonants(m2, root, functions) == Success(m3);
      }
      var merged := MergeRootMorphemes();
      if merged.Failure? {
        return Failure(merged.error);
      }
      functions := FunctionsOf(morphemes);
      return Success(());
    }

    /** The passes of grammar.py:226-233, from the vowel contraction to the assimilation of `n`. */
    method PassesAfterLoss()
      modifies this`morphemes
      ensures morphemes == Assimilation.AssimilateN(Syncope.Syncopate(Assimilation.AssimilateVentiveDativeM(
                Assimilation.AssimilateB(Assimilation.AssimilateObjectSh(Assimilation.AssimilateT(
                Lengthening.LengthenBeforeSuffixes(Contraction.ContractVowelsPass(old(morphemes)))))))), functions)
    {
      ContractVowels();
      LengthenBeforeSuffixes();
      AssimilateT();
      AssimilateObjectSh();
      AssimilateB();
      AssimilateVentiveDativeM();
      SyncopateVowels();
      AssimilateN();
    }
  }

  /** `KamilDecomposition(root, ms)`: the constructor and its cascade, or the exception it raises. */
  method Decompose(root: string, ms: seq<Morpheme>) returns (r: Result<Cascade.Decomposition, CascadeError>)
    ensures r == Cascade.Decomposed(root, ms)
  {
    var d := new KamilDecomposition(root, ms);
    var status := d.Rewrite();
    if status.Failure? {
      return Failure(status.error);
    }
    return Success(Cascade.Decomposition(d.root, d.reconstructed, d.morphemes, d.functions));
  }
}
