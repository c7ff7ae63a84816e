/**
 * `Verb.finite_form` (grammar.py:524-633): from a root, its two theme vowels and a bundle of
 * grammatical features, the underlying morphemes in their fixed order, then the decomposition
 * the rewrite cascade makes of them.
 */
module Verbs {

  import opened Wrappers
  import opened Alphabet
  import opened Morphemes
  import opened Affixes
  import opened RootMerge
  import Cascade
  import Kamil

  /** A root with its durative and perfective theme vowels (grammar.py:524-532). */
  datatype Verb = Verb(root: string, durativeVowel: string, perfectiveVowel: string)

  /** The arguments of `finite_form` after the subject (grammar.py:533-543). */
  datatype Request = Request(p: Agreement, pftv: bool, t: Option<Label>, subj: bool, conj: bool, vent: bool,
                             stem: Stem, acc: Option<Agreement>, dat: Option<Agreement>)

  /** The source annotates `t` as absent, `Label.t` or `Label.tan`, and indexes `root[1]` and `root[-1]`. */
  predicate WellFormed(v: Verb, q: Request) {
    |v.root| >= 2 && (q.t.None? || q.t.value == T || q.t.value == Tan)
  }

  predicate FirstSingular(a: Option<Agreement>) {
    a.Some? && a.value.p == First && a.value.n == SG
  }

  /** A first singular object forces the ventive (grammar.py:544-546). */
  predicate VentiveOn(q: Request) {
    q.vent || FirstSingular(q.acc) || FirstSingular(q.dat)
  }

  /** The ventive and the subjunctive exclude each other (grammar.py:547-548). */
  predicate SubjunctiveOn(q: Request, ventive: bool) {
    q.subj && !ventive
  }

  /** The prefixes of the D stem, also taken by some I-w verbs (grammar.py:549-551). */
  predicate DPrefix(v: Verb, q: Request) {
    q.stem == D || q.stem == Sh ||
    (StartsWith(v.root, "w") && (v.durativeVowel == "a" || EndsWith(v.root, WeakConsonants)))
  }

  /** The Š stem of a root without a weak first radical, which takes no aspect vowel (grammar.py:583). */
  predicate ShUnlikeG(v: Verb, q: Request)
    requires |v.root| >= 1
  {
    q.stem == Sh && v.root[0] !in WeakConsonants
  }

  /** The t or tan morpheme, in the N and Š stems before R₁ (grammar.py:559-566). */
  function TBefore(q: Request): (r: seq<Morpheme>)
    ensures |r| <= 1 && NoInfixes(r)
  {
    if q.t.Some? && (q.stem == N || q.stem == Sh) then
      if q.t == Some(Tan) then [Plain(if !q.pftv then "tana" else "tan", [LabelOf(Tan)])]
      else [Plain("ta", [LabelOf(q.t.value)])]
    else []
  }

  /** The personal prefix, of the D stem or not (grammar.py:553-554). */
  function PrefixMorpheme(v: Verb, q: Request): (m: Morpheme)
    ensures m.infixes == [] && forall f :: f in m.functions ==> f.PersonOf? || f.NumberOf?
  {
    if DPrefix(v, q) then PersonalPrefixD(q.p) else PersonalPrefix(q.p)
  }

  /** The `n` of the N stem or the `ša` of the Š stem (grammar.py:555-558). */
  function StemMarker(q: Request): (r: seq<Morpheme>)
    ensures |r| <= 1 && NoInfixes(r)
    ensures forall m :: m in r ==> m.functions == [LabelOf(Passive)] || m.functions == [LabelOf(Causative)]
  {
    if q.stem == N then [Plain("n", [LabelOf(Passive)])]
    else if q.stem == Sh then [Plain(if q.t.Some? then "š" else "ša", [LabelOf(Causative)])]
    else []
  }

  /** The morphemes before the first radical (grammar.py:552-566). */
  function Before(v: Verb, q: Request): (r: seq<Morpheme>)
    ensures |r| >= 1 && NoInfixes(r)
  {
    [PrefixMorpheme(v, q)] + StemMarker(q) + TBefore(q)
  }

  /** R₁, with its substitutes for I-w and for weak roots in the N stem (grammar.py:568-576). */
  function FirstRadical(v: Verb, q: Request): Morpheme
    requires |v.root| >= 1
  {
    if StartsWith(v.root, "w") && v.durativeVowel != "a" && !EndsWith(v.root, WeakConsonants) then
      Plain("y", [Radical(1)])
    else if q.stem == N && StartsWith(v.root, WeakConsonants) then Plain("n", [Radical(1), LabelOf(Passive)])
    else Plain([v.root[0]], [Radical(1)])
  }

  /** The t or tan morpheme, in the G and D stems after R₁ (grammar.py:578-579). */
  function TAfter(q: Request): (r: seq<Morpheme>)
    ensures |r| <= 1 && NoInfixes(r)
  {
    if q.t.Some? && q.stem != N && q.stem != Sh then
      [Plain(if q.t == Some(T) then "ta" else "tan", [LabelOf(q.t.value)])]
    else []
  }

  /** The vowel between R₁ and R₂ (grammar.py:585-589). */
  function AspectVowel(v: Verb, q: Request): (r: seq<Morpheme>)
    requires |v.root| >= 1
    ensures |r| <= 1 && NoInfixes(r)
  {
    if q.pftv then
      if (q.stem == D || q.stem == N) && q.t.None? then [Plain("a", [LabelOf(Perfective)])] else []
    else if q.t != Some(T) && !ShUnlikeG(v, q) then [Plain("a", [LabelOf(Imperfective)])]
    else []
  }

  /** Whether R₂ is doubled (grammar.py:591-594). */
  predicate DoubledSecondRadical(v: Verb, q: Request)
    requires |v.root| >= 1
  {
    q.stem == D || (!q.pftv && !ShUnlikeG(v, q) && !(q.stem == N && q.t == Some(Tan)))
  }

  /** R₂, single or doubled (grammar.py:591-596). */
  function SecondRadical(v: Verb, q: Request): Morpheme
    requires |v.root| >= 2
  {
    if q.stem == D then Plain([v.root[1], v.root[1]], [Radical(2), LabelOf(DStem)])
    else if DoubledSecondRadical(v, q) then Plain([v.root[1], v.root[1]], [Radical(2), LabelOf(Imperfective)])
    else Plain([v.root[1]], [Radical(2)])
  }

  /** The stem vowel between R₂ and R₃ (grammar.py:598-611). */
  function StemVowel(v: Verb, q: Request): Morpheme {
    if q.pftv then
      Plain(if q.stem == D || q.stem == Sh || (q.stem == N && q.t.None?) then "i"
            else if q.t.Some? then v.durativeVowel
            else v.perfectiveVowel,
            [LabelOf(Perfective)])
    else
      Plain(if q.stem == D || q.stem == Sh ||
               (q.stem == N && v.durativeVowel != "i" && !EndsWith(v.root, WeakConsonants)) then "a"
            else v.durativeVowel,
            [LabelOf(Imperfective)])
  }

  function ThirdRadical(v: Verb): Morpheme
    requires |v.root| >= 1
  {
    Plain([v.root[|v.root| - 1]], [Radical(3)])
  }

  /** The dative suffix, absent for a first singular (grammar.py:620-623). */
  function DativePart(q: Request): (r: seq<Morpheme>)
    ensures |r| <= 1 && NoInfixes(r)
  {
    if q.dat.Some? then
      match DativeSuffix(q.dat.value)
      case Some(m) => [m]
      case None => []
    else []
  }

  /** The subjunctive `u`, only after an empty personal suffix (grammar.py:616-617). */
  function SubjunctivePart(v: Verb, q: Request, ventive: bool): (r: seq<Morpheme>)
    ensures |r| <= 1 && NoInfixes(r)
  {
    if SubjunctiveOn(q, ventive) && PersonalSuffix(q.p, DPrefix(v, q)).text == [] then
      [Plain("u", [LabelOf(Subjunctive)])]
    else []
  }

  /** The accusative suffix (grammar.py:624-625). */
  function AccusativePart(q: Request): (r: seq<Morpheme>)
    ensures |r| <= 1 && NoInfixes(r)
  {
    if q.acc.Some? then [AccusativeSuffix(q.acc.value)] else []
  }

  /** The enclitic `-ma` (grammar.py:626-627). */
  function ConjunctionPart(q: Request): (r: seq<Morpheme>)
    ensures |r| <= 1 && NoInfixes(r)
  {
    if q.conj then [Plain("ma", [LabelOf(Conjunction)])] else []
  }

  /** The morphemes after R₃ (grammar.py:614-627), for a given ventive setting. */
  function Suffixes(v: Verb, q: Request, ventive: bool): (r: seq<Morpheme>)
    ensures |r| >= 1 && NoInfixes(r)
  {
    [PersonalSuffix(q.p, DPrefix(v, q))] + SubjunctivePart(v, q, ventive) +
    (if ventive then [VentiveSuffix(q.p)] else []) +
    DativePart(q) + AccusativePart(q) + ConjunctionPart(q)
  }

  /** The underlying morphemes for a given ventive setting. */
  function UnderlyingWith(v: Verb, q: Request, ventive: bool): (r: seq<Morpheme>)
    requires WellFormed(v, q)
    ensures NoInfixes(r)
  {
    var a := Before(v, q) + [FirstRadical(v, q)];
    NoInfixesAppend(Before(v, q), [FirstRadical(v, q)]);
    var b := a + TAfter(q);
    NoInfixesAppend(a, TAfter(q));
    var c := b + AspectVowel(v, q);
    NoInfixesAppend(b, AspectVowel(v, q));
    var stem := [SecondRadical(v, q), StemVowel(v, q), ThirdRadical(v)];
    assert NoInfixes(stem);
    var d := c + stem;
    NoInfixesAppend(c, stem);
    NoInfixesAppend(d, Suffixes(v, q, ventive));
    d + Suffixes(v, q, ventive)
  }

  /** The list `finite_form` hands to the decomposition (grammar.py:544-627). */
  function Underlying(v: Verb, q: Request): seq<Morpheme>
    requires WellFormed(v, q)
  {
    UnderlyingWith(v, q, VentiveOn(q))
  }

  /** `finite_form` (grammar.py:533-628): the morphemes appended one by one, then decomposed. */
  method FiniteForm(v: Verb, q: Request) returns (d: Result<Cascade.Decomposition, CascadeError>)
    requires WellFormed(v, q)
    ensures d == Cascade.Decomposed(v.root, Underlying(v, q))
  {
    var vent := q.vent;
    if FirstSingular(q.acc) || FirstSingular(q.dat) {
      vent := true;
    }
    var subj := q.subj;
    if vent {
      subj := false;
    }
    var morphemes := AppendBefore(v, q);
    morphemes := AppendStem(v, q, morphemes);
    morphemes := AppendSuffixes(v, q, vent, subj, morphemes);
    d := Kamil.Decompose(v.root, morphemes);
  }

  /** The prefixes and the stem markers before R₁ (grammar.py:552-566). */
  method AppendBefore(v: Verb, q: Request) returns (morphemes: seq<Morpheme>)
    ensures morphemes == Before(v, q)
  {
    morphemes := [];
    morphemes := morphemes + [if DPrefix(v, q) then PersonalPrefixD(q.p) else PersonalPrefix(q.p)];
    if q.stem == N {
      morphemes := morphemes + [Plain("n", [LabelOf(Passive)])];
    }
    if q.stem == Sh {
      morphemes := morphemes + [Plain(if q.t.Some? then "š" else "ša", [LabelOf(Causative)])];
    }
    assert morphemes == [PrefixMorpheme(v, q)] + StemMarker(q);
    if q.t.Some? && (q.stem == N || q.stem == Sh) {
      if q.t == Some(Tan) {
        if !q.pftv {
          morphemes := morphemes + [Plain("tana", [LabelOf(Tan)])];
        } else {
          morphemes := morphemes + [Plain("tan", [LabelOf(Tan)])];
        }
      } else {
        morphemes := morphemes + [Plain("ta", [LabelOf(q.t.value)])];
      }
    }
  }

  /** R₁, the t morpheme after it, the aspect vowel, R₂, the stem vowel and R₃ (grammar.py:568-613). */
  method AppendStem(v: Verb, q: Request, before: seq<Morpheme>) returns (morphemes: seq<Morpheme>)
    requires WellFormed(v, q)
    ensures morphemes == before + [FirstRadical(v, q)] + TAfter(q) + AspectVowel(v, q) +
                         [SecondRadical(v, q), StemVowel(v, q), ThirdRadical(v)]
  {
    morphemes := before + [FirstRadical(v, q)];
    if q.t.Some? && q.stem != N && q.stem != Sh {
      morphemes := morphemes + [Plain(if q.t == Some(T) then "ta" else "tan", [LabelOf(q.t.value)])];
    }
    var shUnlikeG := q.stem == Sh && v.root[0] !in WeakConsonants;
    if q.pftv {
      if (q.stem == D || q.stem == N) && q.t.None? {
        morphemes := morphemes + [Plain("a", [LabelOf(Perfective)])];
      }
    } else if q.t != Some(T) && !shUnlikeG {
      morphemes := morphemes + [Plain("a", [LabelOf(Imperfective)])];
    }
    morphemes := morphemes + [SecondRadical(v, q), StemVowel(v, q), ThirdRadical(v)];
  }

  /** The suffixes after R₃ (grammar.py:614-627), once the ventive and subjunctive are settled. */
  method AppendSuffixes(v: Verb, q: Request, vent: bool, subj: bool, stem: seq<Morpheme>)
    returns (morphemes: seq<Morpheme>)
    requires subj == SubjunctiveOn(q, vent)
    ensures morphemes == stem + Suffixes(v, q, vent)
  {
    var pSuffix := PersonalSuffix(q.p, DPrefix(v, q));
    morphemes := stem + [pSuffix];
    if subj && pSuffix.text == [] {
      morphemes := morphemes + [Plain("u", [LabelOf(Subjunctive)])];
    }
    assert morphemes == stem + ([pSuffix] + SubjunctivePart(v, q, vent));
    ghost var done := morphemes;
    if vent {
      morphemes := morphemes + [VentiveSuffix(q.p)];
    }
    if q.dat.Some? {
      var suffix := DativeSuffix(q.dat.value);
      if suffix.Some? {
        morphemes := morphemes + [suffix.value];
      }
    }
    assert morphemes == done + ((if vent then [VentiveSuffix(q.p)] else []) + DativePart(q));
    ghost var done2 := morphemes;
    if q.acc.Some? {
      morphemes := morphemes + [AccusativeSuffix(q.acc.value)];
    }
    assert morphemes == done2 + AccusativePart(q);
    ghost var done3 := morphemes;
    if q.conj {
      morphemes := morphemes + [Plain("ma", [LabelOf(Conjunction)])];
    }
    assert morphemes == done3 + ConjunctionPart(q);
    SuffixesJoin(v, q, vent, stem);
  }

  lemma SuffixesJoin(v: Verb, q: Request, vent: bool, stem: seq<Morpheme>)
    ensures stem + ([PersonalSuffix(q.p, DPrefix(v, q))] + SubjunctivePart(v, q, vent)) +
            ((if vent then [VentiveSuffix(q.p)] else []) + DativePart(q)) + AccusativePart(q) + ConjunctionPart(q) ==
            stem + Suffixes(v, q, vent)
  {
  }

  /** `durative` (grammar.py:630-631). */
  method DurativeForm(v: Verb, q: Request) returns (d: Result<Cascade.Decomposition, CascadeError>)
    requires WellFormed(v, q)
    ensures d == Cascade.Decomposed(v.root, Underlying(v, q.(pftv := false)))
  {
    d := FiniteForm(v, q.(pftv := false));
  }

  /** `perfective` (grammar.py:632-633). */
  method PerfectiveForm(v: Verb, q: Request) returns (d: Result<Cascade.Decomposition, CascadeError>)
    requires WellFormed(v, q)
    ensures d == Cascade.Decomposed(v.root, Underlying(v, q.(pftv := true)))
  {
    d := FiniteForm(v, q.(pftv := true));
  }


  // ---------------------------------------------------------------- where each feature sits

  /** Some morpheme of `ms` carries `f`. */
  predicate Has(ms: seq<Morpheme>, f: Feature) {
    exists y :: 0 <= y < |ms| && f in ms[y].functions
  }

  /** `f` is carried by morpheme `where` and by no other, or, for `None`, by none. */
  predicate At(ms: seq<Morpheme>, f: Feature, where: Option<nat>) {
    match where
    case None => forall y :: 0 <= y < |ms| ==> f !in ms[y].functions
    case Some(x) => x < |ms| && forall y :: 0 <= y < |ms| ==> (f in ms[y].functions <==> y == x)
  }

  /** Where a feature of `a` or of `b` sits in `a + b`. */
  function Shifted(wa: Option<nat>, wb: Option<nat>, offset: nat): Option<nat> {
    if wa.Some? then wa else if wb.Some? then Some(offset + wb.value) else None
  }

  lemma AtAppend(a: seq<Morpheme>, b: seq<Morpheme>, f: Feature, wa: Option<nat>, wb: Option<nat>)
    requires At(a, f, wa) && At(b, f, wb) && (wa.None? || wb.None?)
    ensures At(a + b, f, Shifted(wa, wb, |a|))
  {
    var u := a + b;
    forall y | 0 <= y < |u|
      ensures f in u[y].functions <==> (if y < |a| then f in a[y].functions else f in b[y - |a|].functions)
    {
      if y < |a| {
        assert u[y] == a[y];
      } else {
        assert u[y] == b[y - |a|];
      }
    }
  }

  lemma AtSingle(m: Morpheme, f: Feature)
    ensures At([m], f, if f in m.functions then Some(0) else None)
  {
  }

  lemma AtEmpty(f: Feature)
    ensures At([], f, None)
  {
  }

  lemma AtHas(ms: seq<Morpheme>, f: Feature, where: Option<nat>)
    requires At(ms, f, where)
    ensures Has(ms, f) <==> where.Some?
  {
    if where.Some? {
      assert f in ms[where.value].functions;
    }
  }

  /** The features whose place in the underlying list the lemmas below follow. */
  predicate Marker(f: Feature) {
    f.Radical? || f == LabelOf(Ventive) || f == LabelOf(Subjunctive) || f == LabelOf(Conjunction) ||
    f == LabelOf(T) || f == LabelOf(Tan)
  }

  /** Before R₁, only a t or tan morpheme of the N and Š stems carries a marker, and it comes last. */
  lemma BeforeAt(v: Verb, q: Request, f: Feature)
    requires WellFormed(v, q) && Marker(f)
    ensures At(Before(v, q), f,
               if q.t.Some? && (q.stem == N || q.stem == Sh) && f == LabelOf(q.t.value) then Some(|Before(v, q)| - 1)
               else None)
  {
    var pre, sm, tb := [PrefixMorpheme(v, q)], StemMarker(q), TBefore(q);
    assert f !in pre[0].functions;
    AtSingle(pre[0], f);
    if sm == [] {
      AtEmpty(f);
    } else {
      assert sm[0] in sm;
      AtSingle(sm[0], f);
      assert sm == [sm[0]];
    }
    AtAppend(pre, sm, f, None, None);
    if tb == [] {
      AtEmpty(f);
      AtAppend(pre + sm, tb, f, None, None);
    } else {
      AtSingle(tb[0], f);
      assert tb == [tb[0]];
      AtAppend(pre + sm, tb, f, None, if f in tb[0].functions then Some(0) else None);
    }
  }

  /** R₁ carries `Radical(1)` and no other marker. */
  lemma FirstRadicalAt(v: Verb, q: Request, f: Feature)
    requires WellFormed(v, q) && Marker(f)
    ensures At([FirstRadical(v, q)], f, if f == Radical(1) then Some(0) else None)
  {
    AtSingle(FirstRadical(v, q), f);
  }

  /** After R₁, the t or tan morpheme of the G and D stems. */
  lemma TAfterAt(v: Verb, q: Request, f: Feature)
    requires WellFormed(v, q) && Marker(f)
    ensures At(TAfter(q), f, if q.t.Some? && q.stem != N && q.stem != Sh && f == LabelOf(q.t.value) then Some(0) else None)
  {
    var ta := TAfter(q);
    if ta == [] {
      AtEmpty(f);
    } else {
      AtSingle(ta[0], f);
      assert ta == [ta[0]];
    }
  }

  /** The aspect vowel carries no marker. */
  lemma AspectVowelAt(v: Verb, q: Request, f: Feature)
    requires WellFormed(v, q) && Marker(f)
    ensures At(AspectVowel(v, q), f, None)
  {
    var av := AspectVowel(v, q);
    if av == [] {
      AtEmpty(f);
    } else {
      AtSingle(av[0], f);
      assert av == [av[0]];
    }
  }

  /** Of R₂, the stem vowel and R₃, only the radicals carry a marker. */
  lemma StemAt(v: Verb, q: Request, f: Feature)
    requires WellFormed(v, q) && Marker(f)
    ensures At([SecondRadical(v, q), StemVowel(v, q), ThirdRadical(v)], f,
               if f == Radical(2) then Some(0) else if f == Radical(3) then Some(2) else None)
  {
    var r2, sv, r3 := SecondRadical(v, q), StemVowel(v, q), ThirdRadical(v);
    AtSingle(r2, f);
    AtSingle(sv, f);
    AtSingle(r3, f);
    AtAppend([r2], [sv], f, if f == Radical(2) then Some(0) else None, None);
    AtAppend([r2] + [sv], [r3], f, if f == Radical(2) then Some(0) else None, if f == Radical(3) then Some(0) else None);
    assert [r2] + [sv] + [r3] == [r2, sv, r3];
  }

  /** After R₃: the subjunctive after the personal suffix, then the ventive, and `-ma` last. */
  lemma SuffixesAt(v: Verb, q: Request, ventive: bool, f: Feature)
    requires Marker(f)
    ensures var sp := SubjunctivePart(v, q, ventive);
            At(Suffixes(v, q, ventive), f,
               if f == LabelOf(Subjunctive) then (if sp != [] then Some(1) else None)
               else if f == LabelOf(Ventive) then (if ventive then Some(1 + |sp|) else None)
               else if f == LabelOf(Conjunction) && q.conj then Some(|Suffixes(v, q, ventive)| - 1)
               else None)
  {
    var ps, sp := PersonalSuffix(q.p, DPrefix(v, q)), SubjunctivePart(v, q, ventive);
    var vp: seq<Morpheme> := if ventive then [VentiveSuffix(q.p)] else [];
    var dp, ap, cp := DativePart(q), AccusativePart(q), ConjunctionPart(q);
    assert f !in ps.functions;
    AtSingle(ps, f);
    var wsp := PieceAt(sp, f);
    var wvp := PieceAt(vp, f);
    var wdp := PieceAt(dp, f);
    var wap := PieceAt(ap, f);
    var wcp := PieceAt(cp, f);
    if dp != [] {
      assert dp[0].functions == [ObjectTag(Dative, q.dat.value)];
    }
    assert wdp.None? && wap.None?;
    assert wsp.Some? <==> f == LabelOf(Subjunctive) && sp != [];
    assert wvp.Some? <==> f == LabelOf(Ventive) && ventive;
    assert wcp.Some? <==> f == LabelOf(Conjunction) && q.conj;
    AtAppend([ps], sp, f, None, wsp);
    var w1 := Shifted(None, wsp, 1);
    AtAppend([ps] + sp, vp, f, w1, wvp);
    var w2 := Shifted(w1, wvp, 1 + |sp|);
    AtAppend([ps] + sp + vp, dp, f, w2, None);
    AtAppend([ps] + sp + vp + dp, ap, f, w2, None);
    AtAppend([ps] + sp + vp + dp + ap, cp, f, w2, wcp);
    assert Suffixes(v, q, ventive) == [ps] + sp + vp + dp + ap + cp;
  }

  /** A piece of at most one morpheme carries `f` at its start or not at all. */
  lemma PieceAt(ms: seq<Morpheme>, f: Feature) returns (where: Option<nat>)
    requires |ms| <= 1
    ensures At(ms, f, where)
    ensures where == if ms != [] && f in ms[0].functions then Some(0) else None
  {
    if ms == [] {
      where := None;
    } else {
      AtSingle(ms[0], f);
      assert ms == [ms[0]];
      where := if f in ms[0].functions then Some(0) else None;
    }
  }

  /** The index of R₁ in the underlying list. */
  function FirstRadicalIndex(v: Verb, q: Request): nat {
    |Before(v, q)|
  }

  /** The index of R₂ in the underlying list; R₃ follows the stem vowel after it. */
  function SecondRadicalIndex(v: Verb, q: Request): nat
    requires |v.root| >= 1
  {
    |Before(v, q)| + 1 + |TAfter(q)| + |AspectVowel(v, q)|
  }

  /** The morphemes up to the aspect vowel. */
  function Head(v: Verb, q: Request): seq<Morpheme>
    requires |v.root| >= 1
  {
    Before(v, q) + [FirstRadical(v, q)] + TAfter(q) + AspectVowel(v, q)
  }

  /** R₂, the stem vowel and R₃. */
  function Stem(v: Verb, q: Request): seq<Morpheme>
    requires |v.root| >= 2
  {
    [SecondRadical(v, q), StemVowel(v, q), ThirdRadical(v)]
  }

  /** Up to the aspect vowel, only R₁ and the t or tan morpheme carry a marker. */
  lemma HeadAt(v: Verb, q: Request, f: Feature)
    requires WellFormed(v, q) && Marker(f)
    ensures var s := FirstRadicalIndex(v, q);
            At(Head(v, q), f,
               if f == Radical(1) then Some(s)
               else if q.t.None? || f != LabelOf(q.t.value) then None
               else if q.stem == N || q.stem == Sh then Some(s - 1)
               else Some(s + 1))
  {
    var a, b, c, d := Before(v, q), [FirstRadical(v, q)], TAfter(q), AspectVowel(v, q);
    var inA := q.t.Some? && (q.stem == N || q.stem == Sh) && f == LabelOf(q.t.value);
    var inC := q.t.Some? && q.stem != N && q.stem != Sh && f == LabelOf(q.t.value);
    var wa: Option<nat> := if inA then Some(|a| - 1) else None;
    var wb: Option<nat> := if f == Radical(1) then Some(0) else None;
    var wc: Option<nat> := if inC then Some(0) else None;
    BeforeAt(v, q, f);
    FirstRadicalAt(v, q, f);
    TAfterAt(v, q, f);
    AspectVowelAt(v, q, f);
    AtAppend(a, b, f, wa, wb);
    var w1 := Shifted(wa, wb, |a|);
    AtAppend(a + b, c, f, w1, wc);
    var w2 := Shifted(w1, wc, |a| + 1);
    AtAppend(a + b + c, d, f, w2, None);
  }

  function Count(w: Option<nat>): nat {
    if w.Some? then 1 else 0
  }

  /** The three parts put together, `f` carried by at most one of them. */
  lemma PartsAt(v: Verb, q: Request, ventive: bool, f: Feature, wh: Option<nat>, we: Option<nat>, wg: Option<nat>)
    requires WellFormed(v, q)
    requires At(Head(v, q), f, wh) && At(Stem(v, q), f, we) && At(Suffixes(v, q, ventive), f, wg)
    requires Count(wh) + Count(we) + Count(wg) <= 1
    ensures var m := SecondRadicalIndex(v, q);
            At(UnderlyingWith(v, q, ventive), f, Shifted(Shifted(wh, we, m), wg, m + 3))
  {
    var h, e, g := Head(v, q), Stem(v, q), Suffixes(v, q, ventive);
    AtAppend(h, e, f, wh, we);
    AtAppend(h + e, g, f, Shifted(wh, we, |h|), wg);
    assert UnderlyingWith(v, q, ventive) == h + e + g;
  }

  /** Where the radicals sit. */
  lemma RadicalAt(v: Verb, q: Request, ventive: bool, k: RadicalPosition)
    requires WellFormed(v, q)
    ensures var s, m := FirstRadicalIndex(v, q), SecondRadicalIndex(v, q);
            At(UnderlyingWith(v, q, ventive), Radical(k), Some(if k == 1 then s else if k == 2 then m else m + 2))
  {
    var f := Radical(k);
    HeadAt(v, q, f);
    StemAt(v, q, f);
    SuffixesAt(v, q, ventive, f);
    if k == 1 {
      PartsAt(v, q, ventive, f, Some(FirstRadicalIndex(v, q)), None, None);
    } else {
      PartsAt(v, q, ventive, f, None, Some(if k == 2 then 0 else 2), None);
    }
  }

  /** Where the subjunctive, the ventive and the connective sit. */
  lemma SuffixMarkerAt(v: Verb, q: Request, ventive: bool, f: Feature)
    requires WellFormed(v, q)
    requires f == LabelOf(Subjunctive) || f == LabelOf(Ventive) || f == LabelOf(Conjunction)
    ensures var m, sp := SecondRadicalIndex(v, q), SubjunctivePart(v, q, ventive);
            At(UnderlyingWith(v, q, ventive), f,
               if f == LabelOf(Subjunctive) then (if sp != [] then Some(m + 4) else None)
               else if f == LabelOf(Ventive) then (if ventive then Some(m + 4 + |sp|) else None)
               else if q.conj then Some(m + 2 + |Suffixes(v, q, ventive)|) else None)
  {
    HeadAt(v, q, f);
    StemAt(v, q, f);
    SuffixesAt(v, q, ventive, f);
    var sp := SubjunctivePart(v, q, ventive);
    var wg: Option<nat> :=
      if f == LabelOf(Subjunctive) then (if sp != [] then Some(1) else None)
      else if f == LabelOf(Ventive) then (if ventive then Some(1 + |sp|) else None)
      else if q.conj then Some(|Suffixes(v, q, ventive)| - 1)
      else None;
    PartsAt(v, q, ventive, f, None, None, wg);
  }

  // ---------------------------------------------------------------- what finite_form promises

  /** Exactly one morpheme is tagged R₁, one R₂ and one R₃, in that order, with one morpheme between R₂ and R₃ (grammar.py:568-613). */
  lemma RadicalsInOrder(v: Verb, q: Request)
    requires WellFormed(v, q)
    ensures var u, s, m := Underlying(v, q), FirstRadicalIndex(v, q), SecondRadicalIndex(v, q);
            s < m && m + 2 < |u| &&
            At(u, Radical(1), Some(s)) && At(u, Radical(2), Some(m)) && At(u, Radical(3), Some(m + 2))
  {
    var ventive := VentiveOn(q);
    RadicalAt(v, q, ventive, 1);
    RadicalAt(v, q, ventive, 2);
    RadicalAt(v, q, ventive, 3);
  }

  /**
   * R₁ is the first letter of the root (or `y`, or the `n` of the N stem), R₃ its last letter and
   * the stem vowel sits between R₂ and R₃; R₂ is doubled iff the stem is D, or the form is durative
   * and neither the Š stem of a strong R₁ nor the N stem with tan (grammar.py:568-613).
   */
  lemma RadicalTexts(v: Verb, q: Request)
    requires WellFormed(v, q)
    ensures var u, s, m := Underlying(v, q), FirstRadicalIndex(v, q), SecondRadicalIndex(v, q);
            m + 2 < |u| && u[s].text in {[v.root[0]], "y", "n"} && u[m + 1] == StemVowel(v, q) &&
            u[m + 2].text == [v.root[|v.root| - 1]] &&
            u[m].text == (if q.stem == D || (!q.pftv && !ShUnlikeG(v, q) && !(q.stem == N && q.t == Some(Tan)))
                          then [v.root[1], v.root[1]] else [v.root[1]])
  {
    RadicalMorphemes(v, q);
    FirstRadicalText(v, q);
    SecondRadicalText(v, q);
  }

  /** The radicals and the stem vowel at their indices. */
  lemma RadicalMorphemes(v: Verb, q: Request)
    requires WellFormed(v, q)
    ensures var u, s, m := Underlying(v, q), FirstRadicalIndex(v, q), SecondRadicalIndex(v, q);
            s < m && m + 2 < |u| && u[s] == FirstRadical(v, q) &&
            u[m] == SecondRadical(v, q) && u[m + 1] == StemVowel(v, q) && u[m + 2] == ThirdRadical(v)
  {
    var ventive := VentiveOn(q);
    var h, e, g := Head(v, q), Stem(v, q), Suffixes(v, q, ventive);
    var s := FirstRadicalIndex(v, q);
    UnderlyingParts(v, q, ventive);
    assert s < |h| && h[s] == FirstRadical(v, q);
    PartIndex(h, e, g, s);
    PartIndex(h, e, g, 0);
    PartIndex(h, e, g, 1);
    PartIndex(h, e, g, 2);
  }

  /** R₁ is written as the first letter of the root, as `y` or as the `n` of the N stem. */
  lemma FirstRadicalText(v: Verb, q: Request)
    requires |v.root| >= 1
    ensures FirstRadical(v, q).text in {[v.root[0]], "y", "n"}
  {
  }

  /** R₂ is written twice exactly when it is doubled. */
  lemma SecondRadicalText(v: Verb, q: Request)
    requires |v.root| >= 2
    ensures SecondRadical(v, q).text ==
            if q.stem == D || (!q.pftv && !ShUnlikeG(v, q) && !(q.stem == N && q.t == Some(Tan)))
            then [v.root[1], v.root[1]] else [v.root[1]]
  {
  }

  /** The underlying list is the head, the stem and the suffixes, the stem starting at R₂'s index. */
  lemma UnderlyingParts(v: Verb, q: Request, ventive: bool)
    requires WellFormed(v, q)
    ensures UnderlyingWith(v, q, ventive) == Head(v, q) + Stem(v, q) + Suffixes(v, q, ventive)
    ensures |Head(v, q)| == SecondRadicalIndex(v, q) && |Stem(v, q)| == 3
  {
  }

  /** Indexing into three joined lists. */
  lemma PartIndex(h: seq<Morpheme>, e: seq<Morpheme>, g: seq<Morpheme>, j: nat)
    ensures j < |h| ==> (h + e + g)[j] == h[j]
    ensures j < |e| ==> (h + e + g)[|h| + j] == e[j]
    ensures j < |g| ==> (h + e + g)[|h| + |e| + j] == g[j]
  {
  }

  /** The morphemes up to the aspect vowel open the underlying list. */
  lemma HeadIndex(v: Verb, q: Request, ventive: bool, j: nat)
    requires WellFormed(v, q) && j < |Head(v, q)|
    ensures j < |UnderlyingWith(v, q, ventive)| && UnderlyingWith(v, q, ventive)[j] == Head(v, q)[j]
  {
    UnderlyingParts(v, q, ventive);
    PartIndex(Head(v, q), Stem(v, q), Suffixes(v, q, ventive), j);
  }

  /** R₂, the stem vowel and R₃ follow them. */
  lemma StemIndex(v: Verb, q: Request, ventive: bool, j: nat)
    requires WellFormed(v, q) && j < 3
    ensures var u, m := UnderlyingWith(v, q, ventive), SecondRadicalIndex(v, q);
            m + j < |u| && u[m + j] == Stem(v, q)[j]
  {
    UnderlyingParts(v, q, ventive);
    PartIndex(Head(v, q), Stem(v, q), Suffixes(v, q, ventive), j);
  }

  /** The personal suffix comes right after R₃ (grammar.py:614-615). */
  lemma PersonalSuffixAfterRadicals(v: Verb, q: Request)
    requires WellFormed(v, q)
    ensures var u, m := Underlying(v, q), SecondRadicalIndex(v, q);
            m + 3 < |u| && u[m + 3] == PersonalSuffix(q.p, DPrefix(v, q))
  {
    SuffixIndex(v, q, VentiveOn(q), 0);
  }

  /** Suffix `j` sits `j` places after the personal suffix, three places after R₂. */
  lemma SuffixIndex(v: Verb, q: Request, ventive: bool, j: nat)
    requires WellFormed(v, q) && j < |Suffixes(v, q, ventive)|
    ensures var u, m := UnderlyingWith(v, q, ventive), SecondRadicalIndex(v, q);
            m + 3 + j < |u| && u[m + 3 + j] == Suffixes(v, q, ventive)[j]
  {
    UnderlyingParts(v, q, ventive);
    PartIndex(Head(v, q), Stem(v, q), Suffixes(v, q, ventive), j);
  }

  /** A first-singular object forces the ventive; otherwise it is there only when asked for (grammar.py:544-546, 618-619). */
  lemma VentiveForced(v: Verb, q: Request)
    requires WellFormed(v, q)
    ensures Has(Underlying(v, q), LabelOf(Ventive)) <==> q.vent || FirstSingular(q.acc) || FirstSingular(q.dat)
  {
    var ventive := VentiveOn(q);
    SuffixMarkerAt(v, q, ventive, LabelOf(Ventive));
    var sp := SubjunctivePart(v, q, ventive);
    AtHas(Underlying(v, q), LabelOf(Ventive), if ventive then Some(SecondRadicalIndex(v, q) + 4 + |sp|) else None);
  }

  /**
   * The ventive rules out the subjunctive, and the subjunctive `u` follows the personal suffix
   * only when that suffix is silent (grammar.py:547-548, 616-617).
   */
  lemma SubjunctivePlacement(v: Verb, q: Request)
    requires WellFormed(v, q)
    ensures var u, m := Underlying(v, q), SecondRadicalIndex(v, q);
            (Has(u, LabelOf(Subjunctive)) <==>
               q.subj && !VentiveOn(q) && PersonalSuffix(q.p, DPrefix(v, q)).text == []) &&
            (Has(u, LabelOf(Subjunctive)) ==> m + 4 < |u| && u[m + 4] == Plain("u", [LabelOf(Subjunctive)]))
  {
    SubjunctivePresent(v, q);
    if SubjunctivePart(v, q, VentiveOn(q)) != [] {
      SubjunctiveSuffix(v, q, VentiveOn(q));
      SuffixIndex(v, q, VentiveOn(q), 1);
    }
  }

  /** The subjunctive is tagged exactly when its part of the suffixes is there. */
  lemma SubjunctivePresent(v: Verb, q: Request)
    requires WellFormed(v, q)
    ensures Has(Underlying(v, q), LabelOf(Subjunctive)) <==> SubjunctivePart(v, q, VentiveOn(q)) != []
  {
    var ventive := VentiveOn(q);
    var sp := SubjunctivePart(v, q, ventive);
    SuffixMarkerAt(v, q, ventive, LabelOf(Subjunctive));
    AtHas(Underlying(v, q), LabelOf(Subjunctive), if sp != [] then Some(SecondRadicalIndex(v, q) + 4) else None);
  }

  /** The subjunctive `u`, when there is one, is the second suffix. */
  lemma SubjunctiveSuffix(v: Verb, q: Request, ventive: bool)
    requires SubjunctivePart(v, q, ventive) != []
    ensures var g := Suffixes(v, q, ventive); |g| > 1 && g[1] == Plain("u", [LabelOf(Subjunctive)])
  {
    var a := [PersonalSuffix(q.p, DPrefix(v, q))] + SubjunctivePart(v, q, ventive);
    assert a[1] == Plain("u", [LabelOf(Subjunctive)]);
    var b := a + (if ventive then [VentiveSuffix(q.p)] else []);
    assert b[1] == a[1];
    var c := b + DativePart(q);
    assert c[1] == b[1];
    var d := c + AccusativePart(q);
    assert d[1] == c[1];
    assert Suffixes(v, q, ventive) == d + ConjunctionPart(q);
  }

  /** With the connective, `-ma` is the last morpheme, and without it no morpheme is `-ma` (grammar.py:626-627). */
  lemma ConjunctionLast(v: Verb, q: Request)
    requires WellFormed(v, q)
    ensures var u := Underlying(v, q);
            (q.conj ==> u[|u| - 1] == Plain("ma", [LabelOf(Conjunction)]) && At(u, LabelOf(Conjunction), Some(|u| - 1))) &&
            (!q.conj ==> !Has(u, LabelOf(Conjunction)))
  {
    if q.conj {
      ConjunctionIsLast(v, q);
    } else {
      NoConjunction(v, q);
    }
  }

  lemma ConjunctionIsLast(v: Verb, q: Request)
    requires WellFormed(v, q) && q.conj
    ensures var u := Underlying(v, q);
            u[|u| - 1] == Plain("ma", [LabelOf(Conjunction)]) && At(u, LabelOf(Conjunction), Some(|u| - 1))
  {
    var ventive := VentiveOn(q);
    UnderlyingParts(v, q, ventive);
    SuffixMarkerAt(v, q, ventive, LabelOf(Conjunction));
    ConjunctionSuffixLast(v, q, ventive);
    LastOfParts(Underlying(v, q), Head(v, q), Stem(v, q), Suffixes(v, q, ventive));
  }

  lemma LastOfParts(u: seq<Morpheme>, h: seq<Morpheme>, e: seq<Morpheme>, g: seq<Morpheme>)
    requires u == h + e + g && |g| > 0
    ensures |u| - 1 == |h| + |e| + |g| - 1 && u[|u| - 1] == g[|g| - 1]
  {
  }

  lemma NoConjunction(v: Verb, q: Request)
    requires WellFormed(v, q) && !q.conj
    ensures !Has(Underlying(v, q), LabelOf(Conjunction))
  {
    SuffixMarkerAt(v, q, VentiveOn(q), LabelOf(Conjunction));
    AtHas(Underlying(v, q), LabelOf(Conjunction), None);
  }

  /** With the connective, `-ma` is the last suffix. */
  lemma ConjunctionSuffixLast(v: Verb, q: Request, ventive: bool)
    requires q.conj
    ensures var g := Suffixes(v, q, ventive); g[|g| - 1] == Plain("ma", [LabelOf(Conjunction)])
  {
  }

  /**
   * The t or tan morpheme comes right before R₁ in the N and Š stems and right after it in the G
   * and D stems; without `t` there is none (grammar.py:559-566, 578-579).
   */
  lemma InfixPlacement(v: Verb, q: Request)
    requires WellFormed(v, q)
    ensures var u, s := Underlying(v, q), FirstRadicalIndex(v, q);
            (q.t.Some? ==> At(u, LabelOf(q.t.value), Some(if q.stem == N || q.stem == Sh then s - 1 else s + 1))) &&
            (q.t.None? ==> !Has(u, LabelOf(T)) && !Has(u, LabelOf(Tan)))
  {
    if q.t.Some? {
      InfixPresent(v, q, VentiveOn(q));
    } else {
      var u := Underlying(v, q);
      InfixAbsent(v, q, VentiveOn(q), LabelOf(T));
      InfixAbsent(v, q, VentiveOn(q), LabelOf(Tan));
      AtHas(u, LabelOf(T), None);
      AtHas(u, LabelOf(Tan), None);
    }
  }

  lemma InfixPresent(v: Verb, q: Request, ventive: bool)
    requires WellFormed(v, q) && q.t.Some?
    ensures var s := FirstRadicalIndex(v, q);
            At(UnderlyingWith(v, q, ventive), LabelOf(q.t.value), Some(if q.stem == N || q.stem == Sh then s - 1 else s + 1))
  {
    var f := LabelOf(q.t.value);
    HeadAt(v, q, f);
    StemAt(v, q, f);
    SuffixesAt(v, q, ventive, f);
    var s := FirstRadicalIndex(v, q);
    PartsAt(v, q, ventive, f, Some(if q.stem == N || q.stem == Sh then s - 1 else s + 1), None, None);
  }

  lemma InfixAbsent(v: Verb, q: Request, ventive: bool, f: Feature)
    requires WellFormed(v, q) && q.t.None? && (f == LabelOf(T) || f == LabelOf(Tan))
    ensures At(UnderlyingWith(v, q, ventive), f, None)
  {
    HeadAt(v, q, f);
    StemAt(v, q, f);
    SuffixesAt(v, q, ventive, f);
    PartsAt(v, q, ventive, f, None, None, None);
  }
}
