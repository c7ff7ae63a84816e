/**
 * The rewrite cascade that `KamilDecomposition.__init__` runs (grammar.py:218-235), as one function
 * of the underlying morphemes: twelve passes in a fixed order, the first exception ending it.
 */
module Cascade {

  import opened Wrappers
  import opened Morphemes
  import opened Overlong
  import opened Colouring
  import opened WeakConsonants
  import opened Contraction
  import opened Lengthening
  import opened Assimilation
  import opened Syncope
  import opened RootMerge

  /**
   * The copies the constructor makes (grammar.py:220-221): the same texts and features, and no
   * infixes, since `Morpheme(m.text, m.functions)` leaves them at their default.
   */
  function Copies(ms: seq<Morpheme>): (r: seq<Morpheme>)
    ensures |r| == |ms| && NoInfixes(r)
    ensures forall i :: 0 <= i < |ms| ==> r[i].text == ms[i].text && r[i].functions == ms[i].functions
  {
    seq(|ms|, i requires 0 <= i < |ms| => Plain(ms[i].text, ms[i].functions))
  }

  /** The passes before the root is merged (grammar.py:223-233), given the features of line 222. */
  function BeforeMerge(root: string, ms: seq<Morpheme>, fns0: set<Feature>): Result<seq<Morpheme>, CascadeError> {
    var m1 := AvoidOverlongClusters(ms);
    var m2 := ColourFrom(m1, 0);
    var m3 :- LoseConsonants(m2, root, fns0);
    var m4 := ContractVowelsPass(m3);
    var m5 := LengthenBeforeSuffixes(m4);
    var m6 := AssimilateT(m5);
    var m7 := AssimilateObjectSh(m6);
    var m8 := AssimilateB(m7);
    var m9 := AssimilateVentiveDativeM(m8);
    var m10 := Syncopate(m9);
    Success(AssimilateN(m10, fns0))
  }

  /** All twelve passes (grammar.py:223-234). */
  function Passes(root: string, ms: seq<Morpheme>, fns0: set<Feature>): Result<seq<Morpheme>, CascadeError> {
    var m11 :- BeforeMerge(root, ms, fns0);
    MergeRoot(m11, root)
  }

  /**
   * A finished decomposition: the root, the copies taken before the cascade, the rewritten
   * morphemes and the features of line 235. Nothing changes it after construction.
   */
  datatype Decomposition = Decomposition(root: string, reconstructed: seq<Morpheme>, morphemes: seq<Morpheme>,
                                         functions: set<Feature>)

  /** What `KamilDecomposition(root, ms)` builds (grammar.py:218-235), or the exception it raises. */
  function Decomposed(root: string, ms: seq<Morpheme>): Result<Decomposition, CascadeError> {
    var m0 := Copies(ms);
    var out :- Passes(root, m0, FunctionsOf(m0));
    Success(Decomposition(root, m0, out, FunctionsOf(out)))
  }

  /** `text` (grammar.py:261-262) of a finished decomposition. */
  function SurfaceText(d: Decomposition): string {
    Text(d.morphemes)
  }

  /** Every pass but the contraction and the merge keeps one morpheme per input morpheme, with its features. */
  lemma BeforeContractionShape(root: string, ms: seq<Morpheme>, fns0: set<Feature>)
    requires LoseConsonants(ColourFrom(AvoidOverlongClusters(ms), 0), root, fns0).Success?
    ensures var r := LoseConsonants(ColourFrom(AvoidOverlongClusters(ms), 0), root, fns0).value;
            |r| == |ms| && forall x :: 0 <= x < |ms| ==> r[x].functions == ms[x].functions
  {
    var m1 := AvoidOverlongClusters(ms);
    var m2 := ColourFrom(m1, 0);
    ColouringShape(m1);
    LoseConsonantsKeepsMorphemes(m2, root, fns0);
  }

  lemma ColouringShape(ms: seq<Morpheme>)
    ensures SameShape(ms, ColourFrom(ms, 0))
  {
    ColourLoopIsGlobal(ms);
  }
}
