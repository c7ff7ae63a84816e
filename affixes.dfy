/**
 * The personal prefixes and suffixes, the ventive and the pronominal object suffixes of
 * grammar.py:152-201: maps from a person, gender and number to a morpheme.
 */
module Affixes {

  import opened Wrappers
  import opened Alphabet
  import opened Morphemes

  /** The persons a caller passes; `Person(1, 3)` only ever appears in glosses. */
  predicate Finite(a: Agreement) {
    a.p != FirstOrThird
  }

  /** `personal_prefix` (grammar.py:152-155), used outside the D and Š stems. */
  function PersonalPrefix(a: Agreement): (m: Morpheme)
    ensures m.infixes == [] && EndsWith(m.text, ShortVowels)
    ensures m.functions != [] && m.functions[0] == PersonOf(a.p)
    ensures forall f :: f in m.functions ==> f.PersonOf? || f.NumberOf?
    ensures m.text == "ta" <==> a.p == Second
  {
    if a.p == First then Plain(if a.n == SG then "a" else "ni", [PersonOf(a.p), NumberOf(a.n)])
    else if a.p == Second then Plain("ta", [PersonOf(a.p)])
    else Plain("i", [PersonOf(a.p)])
  }

  /** `personal_prefix_d` (grammar.py:157-161), used in the D and Š stems. */
  function PersonalPrefixD(a: Agreement): (m: Morpheme)
    ensures m.infixes == [] && EndsWith(m.text, "u")
    ensures m.text == "tu" <==> a.p == Second
    ensures forall f :: f in m.functions ==> f.PersonOf? || f.NumberOf?
    ensures m.functions != [] && m.functions[0] == (if a.p != Second && a.n == SG then PersonOf(FirstOrThird) else PersonOf(a.p))
  {
    assert a.n.SG? || a.n.PL?;
    if a.p == First && a.n == PL then Plain("nu", [PersonOf(a.p), NumberOf(a.n)])
    else if a.p == Second then Plain("tu", [PersonOf(a.p)])
    else if a.n == PL then Plain("u", [PersonOf(a.p), NumberOf(a.n)])
    else Plain("u", [PersonOf(FirstOrThird), NumberOf(a.n)])
  }

  /** The persons and numbers whose personal suffix does not mark gender. */
  predicate GenderUnmarked(a: Agreement) {
    a.p == First || (a.p == Third && a.n == SG) || (a.p == Second && a.n == PL)
  }

  /** `personal_suffix` (grammar.py:163-171): a long vowel, or an empty morpheme that glosses. */
  function PersonalSuffix(a: Agreement, glossForD: bool): (m: Morpheme)
    ensures m.infixes == []
    ensures m.text == [] || IsOneOf(m.text, "īāū")
    ensures m.text != [] <==> (a.p == Second && (a.g == F || a.n == PL)) || (a.p == Third && a.n == PL)
    ensures m.text != [] ==> m.functions != [] && m.functions[0] == PersonOf(a.p)
    ensures forall f :: f in m.functions ==> f.PersonOf? || f.GenderOf? || f.NumberOf?
  {
    assert (a.n.SG? || a.n.PL?) && (a.g.M? || a.g.F?);
    if a.p == Second && a.g == F && a.n == SG then Plain("ī", [PersonOf(a.p), GenderOf(a.g), NumberOf(a.n)])
    else if a.p == Second && a.n == PL then Plain("ā", [PersonOf(a.p), NumberOf(a.n)])
    else if a.p == Third && a.g == F && a.n == PL then Plain("ā", [PersonOf(a.p), GenderOf(a.g), NumberOf(a.n)])
    else if a.p == Third && a.g == M && a.n == PL then Plain("ū", [PersonOf(a.p), GenderOf(a.g), NumberOf(a.n)])
    else Plain("",
      if glossForD && a.n == SG && a.p in {First, Third} then [PersonOf(FirstOrThird), NumberOf(a.n)]
      else if a.p == First then [PersonOf(a.p)]
      else if a.p == Second && a.n == SG then [PersonOf(a.p), GenderOf(a.g), NumberOf(a.n)]
      else [PersonOf(a.p), NumberOf(a.n)])
  }

  /**
   * The plain prefix and the suffix together identify person and number, and gender wherever
   * the suffix marks it; the third singular and the second plural are the syncretic cells.
   */
  lemma PersonalAffixesDistinguish(a: Agreement, b: Agreement)
    requires Finite(a) && Finite(b)
    ensures (PersonalPrefix(a).text == PersonalPrefix(b).text &&
             PersonalSuffix(a, false).text == PersonalSuffix(b, false).text)
        <==> a.p == b.p && a.n == b.n && (a.g == b.g || GenderUnmarked(a))
  {
  }

  /**
   * `ventive` (grammar.py:173-177), reading the comparison `p != 1` as "not first person": a
   * plural other than the first takes `nim`, the second feminine singular `m`, all others `am`.
   */
  function VentiveSuffix(a: Agreement): (m: Morpheme)
    ensures m.infixes == [] && m.functions == [LabelOf(Ventive)] && EndsWith(m.text, "m")
    ensures m.text == "nim" <==> a.n == PL && a.p != First
    ensures m.text == "m" <==> a.p == Second && a.g == F && a.n == SG
  {
    Plain(if a.n == PL && a.p != First then "nim"
          else if a.p == Second && a.g == F then "m"
          else "am",
          [LabelOf(Ventive)])
  }

  /**
   * `ventive` as written: its `p` is a `Person`, which never equals the integer 1, so the first
   * branch is taken for every plural.
   */
  function VentiveSuffixAsWritten(a: Agreement): (m: Morpheme)
    ensures a.n == PL ==> m.text == "nim"
  {
    Plain(if a.n == PL then "nim" else if a.p == Second && a.g == F then "m" else "am", [LabelOf(Ventive)])
  }

  /** The first plural ventive: `nim` as written, `am` as intended. */
  lemma VentiveFirstPluralDiffers(g: Gender)
    ensures VentiveSuffixAsWritten(Agreement(First, g, PL)).text == "nim"
    ensures VentiveSuffix(Agreement(First, g, PL)).text == "am"
  {
  }

  /** The object tag the source builds: first-person objects carry no gender. */
  function ObjectTag(c: ObjectCase, a: Agreement): Feature {
    VerbObject(c, a.p, if a.p == First then None else Some(a.g), a.n)
  }

  /** `acc_pronominal_suffix` (grammar.py:179-189). */
  function AccusativeSuffix(a: Agreement): (m: Morpheme)
    ensures m.infixes == [] && m.functions == [ObjectTag(Accusative, a)]
    ensures EndsWith(m.text, "iua")
    ensures StartsWith(m.text, "š") <==> a.p != First && a.p != Second
    ensures StartsWith(m.text, "k") <==> a.p == Second
    ensures StartsWith(m.text, "n") <==> a.p == First
  {
    var tag := [ObjectTag(Accusative, a)];
    if a.n == SG then
      if a.p == First then Plain("ni", tag)
      else if a.p == Second then (if a.g == F then Plain("ki", tag) else Plain("ka", tag))
      else (if a.g == F then Plain("ši", tag) else Plain("šu", tag))
    else
      if a.p == First then Plain("niāti", tag)
      else if a.p == Second then (if a.g == F then Plain("kināti", tag) else Plain("kunūti", tag))
      else (if a.g == F then Plain("šināti", tag) else Plain("šunūti", tag))
  }

  /** `dat_pronominal_suffix` (grammar.py:191-201): there is no first singular dative suffix. */
  function DativeSuffix(a: Agreement): (r: Option<Morpheme>)
    ensures r.None? <==> a.p == First && a.n == SG
    ensures r.Some? ==> r.value.infixes == [] && r.value.functions == [ObjectTag(Dative, a)]
    ensures r.Some? ==> EndsWith(r.value.text, "m")
    ensures r.Some? ==> (StartsWith(r.value.text, "š") <==> a.p != First && a.p != Second)
  {
    var tag := [ObjectTag(Dative, a)];
    if a.n == SG then
      if a.p == First then None
      else if a.p == Second then Some(if a.g == F then Plain("kim", tag) else Plain("kum", tag))
      else Some(if a.g == F then Plain("šim", tag) else Plain("šum", tag))
    else
      if a.p == First then Some(Plain("niāšim", tag))
      else if a.p == Second then Some(if a.g == F then Plain("kināšim", tag) else Plain("kunūšim", tag))
      else Some(if a.g == F then Plain("šināšim", tag) else Plain("šunūšim", tag))
  }
}
