/**
 * The metalanguage features, morphemes and the overt-morpheme helpers of grammar.py.
 *
 * Features are values compared by content, as the source's `__eq__` methods compare them, with
 * one exception kept separately: a direct and an indirect object of the same person, gender and
 * number are equal in the source (grammar.py:70-71), which `Same` reproduces.
 */
module Morphemes {

  import opened Wrappers
  import opened Alphabet

  datatype Stem = G | D | Sh | N

  /** `Person(1)`, `Person(2)`, `Person(3)`, and the gloss-only `Person(1, 3)`. */
  datatype Person = First | Second | Third | FirstOrThird

  datatype Gender = M | F

  datatype Number = SG | PL

  /** The members of the source's `Label` enum; `DStem` is its `Label.D`. */
  datatype Label = Ventive | T | Tan | Passive | Causative | Perfective | Imperfective | DStem
                 | Subjunctive | Conjunction

  /** Whether a `VerbObject` is a `DirectObject` (ACC) or an `IndirectObject` (DAT). */
  datatype ObjectCase = Accusative | Dative

  type RadicalPosition = k: nat | 1 <= k <= 3 witness 1

  datatype Feature =
    | PersonOf(person: Person)
    | GenderOf(gender: Gender)
    | NumberOf(number: Number)
    | VerbObject(objectCase: ObjectCase, p: Person, g: Option<Gender>, n: Number)
    | LabelOf(name: Label)
    | Radical(position: RadicalPosition)
    | Root(root: string)

  /** A person, gender and number, as the source passes them around in a tuple. */
  datatype Agreement = Agreement(p: Person, g: Gender, n: Number)

  /** The source's `==` on features: objects compare without their case. */
  predicate Same(f: Feature, h: Feature) {
    if f.VerbObject? && h.VerbObject? then f.p == h.p && f.g == h.g && f.n == h.n else f == h
  }

  /** The source's `f in functions`. */
  predicate Contains(fs: seq<Feature>, f: Feature) {
    exists x :: x in fs && Same(x, f)
  }

  lemma ContainsPlain(fs: seq<Feature>, f: Feature)
    requires !f.VerbObject?
    ensures Contains(fs, f) <==> f in fs
  {
    if f in fs {
      assert Same(f, f);
    }
  }

  /** No two features that the source's `==` identifies. */
  predicate Distinct(fs: seq<Feature>) {
    forall a, b :: 0 <= a < b < |fs| ==> !Same(fs[a], fs[b])
  }

  /**
   * `for f in gs: if f not in fs: fs.append(f)` (grammar.py:482-484, 515): the features of `gs`
   * that `fs` lacks, appended in order.
   */
  function AppendNew(fs: seq<Feature>, gs: seq<Feature>): (r: seq<Feature>)
    ensures |fs| <= |r| && r[..|fs|] == fs
    decreases |gs|
  {
    if gs == [] then fs
    else
      var fs1 := if Contains(fs, gs[0]) then fs else fs + [gs[0]];
      AppendNew(fs1, gs[1..])
  }

  /** Every feature of `gs` ends up in the result, which holds nothing from elsewhere. */
  lemma {:induction false} AppendNewMembers(fs: seq<Feature>, gs: seq<Feature>)
    ensures forall g :: g in gs ==> Contains(AppendNew(fs, gs), g)
    ensures forall f :: f in AppendNew(fs, gs) ==> f in fs || f in gs
    decreases |gs|
  {
    if gs != [] {
      var fs1 := if Contains(fs, gs[0]) then fs else fs + [gs[0]];
      var r := AppendNew(fs1, gs[1..]);
      AppendNewMembers(fs1, gs[1..]);
      assert Contains(fs1, gs[0]) by {
        if !Contains(fs, gs[0]) {
          assert fs1[|fs|] == gs[0] && Same(gs[0], gs[0]);
        }
      }
      forall x | x in fs1
        ensures x in r
      {
        var p :| 0 <= p < |fs1| && fs1[p] == x;
        assert r[..|fs1|][p] == x;
      }
      forall g | g in gs
        ensures Contains(r, g)
      {
        if g != gs[0] {
          assert g in gs[1..];
        }
      }
      forall f | f in r
        ensures f in fs || f in gs
      {
        if f in gs[1..] {
          assert f in gs;
        } else if f !in fs {
          assert f == gs[0];
        }
      }
    }
  }

  /** A feature other than an object is appended once if it is missing, and never if it is present. */
  lemma {:induction false} AppendNewCount(fs: seq<Feature>, gs: seq<Feature>, f: Feature)
    requires !f.VerbObject?
    ensures multiset(AppendNew(fs, gs))[f] == if f in fs then multiset(fs)[f] else if f in gs then 1 else 0
    decreases |gs|
  {
    if gs != [] {
      var fs1 := if Contains(fs, gs[0]) then fs else fs + [gs[0]];
      AppendNewCount(fs1, gs[1..], f);
      if gs[0] == f {
        ContainsPlain(fs, f);
      }
      assert gs == [gs[0]] + gs[1..];
    }
  }

  /** Appending only what is missing adds no duplicates. */
  lemma {:induction false} AppendNewDistinct(fs: seq<Feature>, gs: seq<Feature>)
    requires Distinct(fs)
    ensures Distinct(AppendNew(fs, gs))
    decreases |gs|
  {
    if gs != [] {
      var fs1 := if Contains(fs, gs[0]) then fs else fs + [gs[0]];
      assert Distinct(fs1);
      AppendNewDistinct(fs1, gs[1..]);
    }
  }

  /** The nested loops of grammar.py:481-484 are one loop over the concatenated lists. */
  lemma {:induction false} AppendNewConcat(fs: seq<Feature>, a: seq<Feature>, b: seq<Feature>)
    ensures AppendNew(fs, a + b) == AppendNew(AppendNew(fs, a), b)
    decreases |a|
  {
    if a == [] {
      assert a + b == b;
    } else {
      assert (a + b)[0] == a[0] && (a + b)[1..] == a[1..] + b;
      AppendNewConcat(if Contains(fs, a[0]) then fs else fs + [a[0]], a[1..], b);
    }
  }

  /** `any(isinstance(f, VerbObject) for f in functions)`. */
  predicate HasObject(fs: seq<Feature>) {
    exists f :: f in fs && f.VerbObject?
  }

  /** `any(isinstance(f, IndirectObject) for f in functions)`. */
  predicate HasIndirectObject(fs: seq<Feature>) {
    exists f :: f in fs && f.VerbObject? && f.objectCase == Dative
  }

  /** `any(isinstance(f, Person) for f in functions)`. */
  predicate HasPerson(fs: seq<Feature>) {
    exists f :: f in fs && f.PersonOf?
  }

  predicate IsTInfix(fs: seq<Feature>) {
    LabelOf(T) in fs || LabelOf(Tan) in fs
  }

  /** A morpheme: its text, the features it realises, and infixes at offsets into its text. */
  datatype Morpheme = Morpheme(text: string, functions: seq<Feature>, infixes: seq<Infix>)

  datatype Infix = Infix(offset: nat, morpheme: Morpheme)

  function Plain(text: string, functions: seq<Feature>): Morpheme {
    Morpheme(text, functions, [])
  }

  /** The exceptions the rewrite cascade raises (grammar.py:322-327, 367, 518-522). */
  datatype CascadeError =
    | NotAfterShortVowel(previous: string)
    | NotBeforeShortVowel(next: string)
    | NotBeforeConsonant(afterNext: string)
    | NothingToLengthen
    | NoThirdRadical
    | RadicalMissing(position: RadicalPosition)

  // ---------------------------------------------------------------- surface text

  /** `object_language` (grammar.py:134-138); only its use inside `plain_text` is modelled. */
  function ObjectLanguage(m: Morpheme): string
    decreases m, 1, 0
  {
    InsertInfixes(m, if m.text == [] then "∅" else m.text, 0, true)
  }

  /** `plain_text` (grammar.py:128-132): the text with each infix inserted at its offset. */
  function PlainText(m: Morpheme): string
    decreases m, 1, 0
  {
    InsertInfixes(m, m.text, 0, false)
  }

  /** Inserts `m`'s infixes from the `k`th on into `t`, bracketed for `object_language`. */
  function InsertInfixes(m: Morpheme, t: string, k: nat, bracket: bool): string
    decreases m, 0, |m.infixes| - k
  {
    if k >= |m.infixes| then t
    else
      var off := if m.infixes[k].offset <= |t| then m.infixes[k].offset else |t|;
      assert m.infixes[k] in m.infixes;
      var inner := ObjectLanguage(m.infixes[k].morpheme);
      InsertInfixes(m, t[..off] + (if bracket then "⟨" + inner + "⟩" else inner) + t[off..], k + 1, bracket)
  }

  lemma PlainTextNoInfixes(m: Morpheme)
    requires m.infixes == []
    ensures PlainText(m) == m.text
  {
  }

  /** `KamilDecomposition.text` (grammar.py:261-262). */
  function Text(ms: seq<Morpheme>): string {
    if ms == [] then [] else PlainText(ms[0]) + Text(ms[1..])
  }

  /** The morpheme texts alone, joined: what `syncopate_vowels` walks (grammar.py:462-463). */
  function Concat(ms: seq<Morpheme>): string {
    if ms == [] then [] else ms[0].text + Concat(ms[1..])
  }

  predicate NoInfixes(ms: seq<Morpheme>) {
    forall i :: 0 <= i < |ms| ==> ms[i].infixes == []
  }

  lemma NoInfixesAppend(a: seq<Morpheme>, b: seq<Morpheme>)
    requires NoInfixes(a) && NoInfixes(b)
    ensures NoInfixes(a + b)
  {
    forall i | 0 <= i < |a + b|
      ensures (a + b)[i].infixes == []
    {
      if i < |a| {
        assert (a + b)[i] == a[i];
      } else {
        assert (a + b)[i] == b[i - |a|];
      }
    }
  }

  lemma {:induction false} TextAppend(a: seq<Morpheme>, b: seq<Morpheme>)
    ensures Text(a + b) == Text(a) + Text(b)
  {
    if a == [] {
      assert a + b == b;
    } else {
      assert (a + b)[0] == a[0] && (a + b)[1..] == a[1..] + b;
      TextAppend(a[1..], b);
    }
  }

  lemma {:induction false} ConcatAppend(a: seq<Morpheme>, b: seq<Morpheme>)
    ensures Concat(a + b) == Concat(a) + Concat(b)
  {
    if a == [] {
      assert a + b == b;
    } else {
      assert (a + b)[0] == a[0] && (a + b)[1..] == a[1..] + b;
      ConcatAppend(a[1..], b);
    }
  }

  /** Without infixes, the surface text is the morpheme texts joined. */
  lemma {:induction false} TextIsConcat(ms: seq<Morpheme>)
    requires NoInfixes(ms)
    ensures Text(ms) == Concat(ms)
  {
    if ms != [] {
      PlainTextNoInfixes(ms[0]);
      TextIsConcat(ms[1..]);
    }
  }

  /** Splits the joined texts around the morpheme at `i`. */
  lemma {:induction false} ConcatSplit(ms: seq<Morpheme>, i: nat)
    requires i < |ms|
    ensures Concat(ms) == Concat(ms[..i]) + ms[i].text + Concat(ms[i + 1..])
  {
    assert ms[..i] + ms[i..] == ms;
    ConcatAppend(ms[..i], ms[i..]);
    assert ms[i..][1..] == ms[i + 1..];
  }

  /** Splits the joined texts before morpheme `k`. */
  lemma ConcatAt(ms: seq<Morpheme>, k: nat)
    requires k <= |ms|
    ensures Concat(ms) == Concat(ms[..k]) + Concat(ms[k..])
  {
    var a, b := ms[..k], ms[k..];
    ConcatAppend(a, b);
    assert a + b == ms;
  }

  /** The feature lists of `ms`, one after the other. */
  function Flatten(ms: seq<Morpheme>): seq<Feature> {
    if ms == [] then [] else ms[0].functions + Flatten(ms[1..])
  }

  lemma {:induction false} FlattenAppend(a: seq<Morpheme>, b: seq<Morpheme>)
    ensures Flatten(a + b) == Flatten(a) + Flatten(b)
  {
    if a == [] {
      assert a + b == b;
    } else {
      assert (a + b)[0] == a[0] && (a + b)[1..] == a[1..] + b;
      FlattenAppend(a[1..], b);
    }
  }

  lemma FlattenSnoc(ms: seq<Morpheme>, a: nat, b: nat)
    requires a <= b < |ms|
    ensures Flatten(ms[a..b + 1]) == Flatten(ms[a..b]) + ms[b].functions
  {
    assert ms[a..b + 1] == ms[a..b] + [ms[b]];
    FlattenAppend(ms[a..b], [ms[b]]);
    assert Flatten([ms[b]]) == ms[b].functions + Flatten([]);
  }

  /** Every feature of every morpheme (the source's `self.functions`, grammar.py:222, 235). */
  function FunctionsOf(ms: seq<Morpheme>): (fs: set<Feature>)
    ensures forall i, f :: 0 <= i < |ms| && f in ms[i].functions ==> f in fs
  {
    set m, f | m in ms && f in m.functions :: f
  }

  // ---------------------------------------------------------------- in-place text updates

  /** `self.morphemes[i].text = t`. */
  function SetText(ms: seq<Morpheme>, i: nat, t: string): (r: seq<Morpheme>)
    requires i < |ms|
    ensures SameShape(ms, r) && r[i].text == t
    ensures forall x :: 0 <= x < |ms| && x != i ==> r[x] == ms[x]
  {
    ms[i := ms[i].(text := t)]
  }

  /** The two lists differ at most in their texts. */
  predicate SameShape(a: seq<Morpheme>, b: seq<Morpheme>) {
    |a| == |b| &&
    forall i :: 0 <= i < |a| ==> a[i].functions == b[i].functions && a[i].infixes == b[i].infixes
  }

  /** Python's `morphemes[j]` for `j >= -1`: index -1 is the last morpheme. */
  function Wrap(j: int, n: nat): nat
    requires -1 <= j < n && 0 < n
  {
    if j < 0 then n - 1 else j
  }

  // ---------------------------------------------------------------- overt morphemes

  /**
   * `next_overt_morpheme` (grammar.py:264-272): the first morpheme after `i` with a non-empty
   * text and that text, or, when there is none, the position past the end and the empty text.
   */
  function NextOvert(ms: seq<Morpheme>, i: nat): (r: (nat, string))
    ensures i < r.0
    ensures r.0 < |ms| ==> r.1 == ms[r.0].text && r.1 != []
    ensures r.0 >= |ms| ==> r.1 == [] && r.0 == (if i < |ms| then |ms| else i + 1)
    ensures forall j :: i < j < r.0 && j < |ms| ==> ms[j].text == []
    decreases |ms| - i
  {
    if i + 1 >= |ms| then (i + 1, [])
    else if ms[i + 1].text != [] then (i + 1, ms[i + 1].text)
    else NextOvert(ms, i + 1)
  }

  /**
   * `previous_overt_morpheme` (grammar.py:274-282): the last morpheme before `i` with a non-empty
   * text and that text, or -1 and the empty text when there is none.
   */
  function PrevOvert(ms: seq<Morpheme>, i: nat): (r: (int, string))
    requires i <= |ms|
    ensures -1 <= r.0 < i
    ensures r.0 >= 0 ==> r.1 == ms[r.0].text && r.1 != []
    ensures r.0 < 0 ==> r.1 == []
    ensures forall j :: r.0 < j < i ==> ms[j].text == []
  {
    if i == 0 then (-1, [])
    else if ms[i - 1].text != [] then (i - 1, ms[i - 1].text)
    else PrevOvert(ms, i - 1)
  }

  /** The overt-morpheme search only looks at texts. */
  lemma NextOvertShape(a: seq<Morpheme>, b: seq<Morpheme>, i: nat)
    requires |a| == |b| && forall j :: 0 <= j < |a| ==> a[j].text == b[j].text
    ensures NextOvert(a, i) == NextOvert(b, i)
    decreases |a| - i
  {
    if i + 1 < |a| {
      NextOvertShape(a, b, i + 1);
    }
  }

  /** The next overt morpheme depends only on the texts after `i`. */
  lemma {:induction false} NextOvertSuffix(a: seq<Morpheme>, b: seq<Morpheme>, i: nat)
    requires |a| == |b| && forall j :: i < j < |a| ==> a[j].text == b[j].text
    ensures NextOvert(a, i) == NextOvert(b, i)
    decreases |a| - i
  {
    if i + 1 < |a| {
      NextOvertSuffix(a, b, i + 1);
    }
  }

  /** The previous overt morpheme depends only on the texts before `i`. */
  lemma {:induction false} PrevOvertPrefix(a: seq<Morpheme>, b: seq<Morpheme>, i: nat)
    requires i <= |a| && i <= |b| && forall j :: 0 <= j < i ==> a[j].text == b[j].text
    ensures PrevOvert(a, i) == PrevOvert(b, i)
  {
    if i > 0 {
      PrevOvertPrefix(a, b, i - 1);
    }
  }
}
