/**
 * The form index of lexicon.py: every finite form of a fixed list of verbs, generated once per
 * object agreement and filed under its surface text and its gloss, then a second table that files
 * each surface text under its spelling without vowel length.
 *
 * The order of the nested loops of `add_forms` (lexicon.py:47-66) is kept, because a later form
 * whose gloss key equals an earlier one's replaces it, and the first exception ends the load with
 * the tables as they stood. The gloss key, `str(gloss)`, is a rendering the index is given.
 */
module Lexicon {

  import opened Wrappers
  import opened Alphabet
  import opened Morphemes
  import opened Verbs
  import Cascade

  /** `verbs` (lexicon.py:6-34): a root with its durative and perfective theme vowels. */
  const VerbList: seq<Verb> := [
    Verb("ʾgr", "a", "u"), Verb("ʾḫz", "a", "u"), Verb("ʾlk", "a", "i"), Verb("ʾmr", "a", "u"),
    Verb("bnʾ", "i", "i"), Verb("bšʾ", "i", "i"), Verb("dwk", "a", "u"), Verb("ḥpš", "a", "u"),
    Verb("ḥbb", "i", "i"), Verb("kwn", "a", "u"), Verb("kšd", "a", "u"), Verb("kšš", "a", "u"),
    Verb("lqḥ", "a", "a"), Verb("mdd", "a", "u"), Verb("mḫṣ", "a", "a"), Verb("mḫr", "a", "u"),
    Verb("ndn", "i", "i"), Verb("ndʾ", "i", "i"), Verb("prs", "a", "u"), Verb("qbʾ", "i", "i"),
    Verb("qyš", "a", "i"), Verb("ṣbt", "a", "a"), Verb("šʾm", "a", "a"), Verb("šlʾ", "i", "i"),
    Verb("šlm", "i", "i"), Verb("šql", "a", "u"), Verb("wbl", "a", "u")
  ]

  /** The members of `Stem`, `Number` and `Gender` in declaration order, and the persons 1, 2, 3. */
  const Stems: seq<Stem> := [G, D, Sh, N]
  const Numbers: seq<Number> := [SG, PL]
  const Persons: seq<Person> := [First, Second, Third]
  const Genders: seq<Gender> := [M, F]
  const Bools: seq<bool> := [false, true]

  /** `(False,) if vent else (False, True)` (lexicon.py:50). */
  function SubjChoices(vent: bool): (r: seq<bool>)
    ensures r == if vent then [false] else [false, true]
  {
    if vent then [false] else Bools
  }

  /** The three paradigm blocks of one verb (lexicon.py:52-66): durative, perfective, perfective with `t`. */
  datatype Block = DurativeBlock | PerfectiveBlock | PerfectiveTBlock

  const Blocks: seq<Block> := [DurativeBlock, PerfectiveBlock, PerfectiveTBlock]

  /** The loop variables fixed above the verb loop. */
  datatype Frame = Frame(stem: Stem, conj: bool, vent: bool, subj: bool, acc: Option<Agreement>)

  /** One call of `durative` or `perfective`. */
  datatype Call = Call(v: Verb, q: Request)

  /** A call `finite_form` accepts: a root of two letters or more, `t` absent, `Label.t` or `Label.tan`. */
  type FormCall = c: Call | WellFormed(c.v, c.q)
    witness Call(Verb("prs", "a", "u"), Request(Agreement(Third, M, SG), false, None, false, false, false, G, None, None))

  function FrameOf(c: Call): Frame {
    Frame(c.q.stem, c.q.conj, c.q.vent, c.q.subj, c.q.acc)
  }

  /** The block fixes `pftv` and `t`; no block passes a dative. */
  predicate InBlock(q: Request, b: Block) {
    q.pftv == (b != DurativeBlock) && q.t == (if b == PerfectiveTBlock then Some(T) else None) && q.dat.None?
  }

  /** The arguments a block passes for one person, gender and number (lexicon.py:55, 60, 65). */
  function CallFor(v: Verb, fr: Frame, b: Block, a: Agreement): (c: FormCall)
    requires |v.root| >= 2
    ensures c.v == v && c.q.p == a && FrameOf(c) == fr && InBlock(c.q, b)
  {
    Call(v, Request(a, b != DurativeBlock, if b == PerfectiveTBlock then Some(T) else None, fr.subj, fr.conj,
                    fr.vent, fr.stem, fr.acc, None))
  }

  /** Verbs whose roots `finite_form` can index. */
  predicate Roots(vs: seq<Verb>) {
    forall k :: 0 <= k < |vs| ==> |vs[k].root| >= 2
  }

  /** Every root of the list has three letters. */
  lemma RootsLong()
    ensures Roots(VerbList)
  {
  }

  // ---------------------------------------------------------------- the enumeration, loop by loop

  /**
   * One loop of `add_forms` (lexicon.py:47-66), given the values of the loops around it. The
   * three blocks of a verb are one loop over `Blocks`; the verb list is carried from the top.
   */
  datatype Loop =
    | StemLoop(vs: seq<Verb>, acc: Option<Agreement>)
    | ConjLoop(vs: seq<Verb>, acc: Option<Agreement>, stem: Stem)
    | VentLoop(vs: seq<Verb>, acc: Option<Agreement>, stem: Stem, conj: bool)
    | SubjLoop(vs: seq<Verb>, acc: Option<Agreement>, stem: Stem, conj: bool, vent: bool)
    | VerbLoop(vs: seq<Verb>, fr: Frame)
    | BlockLoop(v: Verb, fr: Frame)
    | NumberLoop(v: Verb, fr: Frame, b: Block)
    | PersonLoop(v: Verb, fr: Frame, b: Block, n: Number)
    | GenderLoop(v: Verb, fr: Frame, b: Block, n: Number, p: Person)

  /** How many turns the loop makes. */
  function Width(l: Loop): nat {
    match l
    case StemLoop(_, _) => |Stems|
    case ConjLoop(_, _, _) => |Bools|
    case VentLoop(_, _, _, _) => |Bools|
    case SubjLoop(_, _, _, _, vent) => |SubjChoices(vent)|
    case VerbLoop(vs, _) => |vs|
    case BlockLoop(_, _) => |Blocks|
    case NumberLoop(_, _, _) => |Numbers|
    case PersonLoop(_, _, _, _) => |Persons|
    case GenderLoop(_, _, _, _, _) => |Genders|
  }

  /** How many loops are nested inside it. */
  function Depth(l: Loop): nat {
    match l
    case StemLoop(_, _) => 8
    case ConjLoop(_, _, _) => 7
    case VentLoop(_, _, _, _) => 6
    case SubjLoop(_, _, _, _, _) => 5
    case VerbLoop(_, _) => 4
    case BlockLoop(_, _) => 3
    case NumberLoop(_, _, _) => 2
    case PersonLoop(_, _, _, _) => 1
    case GenderLoop(_, _, _, _, _) => 0
  }

  /** The verbs the loop reaches have roots `finite_form` can index. */
  predicate Fits(l: Loop) {
    if l.StemLoop? || l.ConjLoop? || l.VentLoop? || l.SubjLoop? || l.VerbLoop? then Roots(l.vs) else |l.v.root| >= 2
  }

  /** The calls of turn `k` of a loop: the whole inner loop, or, innermost, one form. */
  function Turn(l: Loop, k: nat): seq<FormCall>
    requires Fits(l) && k < Width(l)
    decreases Depth(l), 0
  {
    match l
    case StemLoop(vs, acc) => CallsFrom(ConjLoop(vs, acc, Stems[k]), 0)
    case ConjLoop(vs, acc, stem) => CallsFrom(VentLoop(vs, acc, stem, Bools[k]), 0)
    case VentLoop(vs, acc, stem, conj) => CallsFrom(SubjLoop(vs, acc, stem, conj, Bools[k]), 0)
    case SubjLoop(vs, acc, stem, conj, vent) => CallsFrom(VerbLoop(vs, Frame(stem, conj, vent, SubjChoices(vent)[k], acc)), 0)
    case VerbLoop(vs, fr) => CallsFrom(BlockLoop(vs[k], fr), 0)
    case BlockLoop(v, fr) => CallsFrom(NumberLoop(v, fr, Blocks[k]), 0)
    case NumberLoop(v, fr, b) => CallsFrom(PersonLoop(v, fr, b, Numbers[k]), 0)
    case PersonLoop(v, fr, b, n) => CallsFrom(GenderLoop(v, fr, b, n, Persons[k]), 0)
    case GenderLoop(v, fr, b, n, p) => [CallFor(v, fr, b, Agreement(p, Genders[k], n))]
  }

  /** The calls of the turns `k`, `k + 1`, ... of a loop, in order. */
  function CallsFrom(l: Loop, k: nat): seq<FormCall>
    requires Fits(l) && k <= Width(l)
    decreases Depth(l), 1, Width(l) - k
  {
    if k == Width(l) then [] else Turn(l, k) + CallsFrom(l, k + 1)
  }

  /** Every call `add_forms(acc)` makes, in order (lexicon.py:47-66). */
  function AddFormsCalls(vs: seq<Verb>, acc: Option<Agreement>): seq<FormCall>
    requires Roots(vs)
  {
    CallsFrom(StemLoop(vs, acc), 0)
  }

  // ---------------------------------------------------------------- which calls are made

  /** The position of each value in the sequence its loop runs over. */
  function GenderPosition(g: Gender): nat { if g == M then 0 else 1 }
  function PersonPosition(p: Person): nat {
    match p
    case First => 0
    case Second => 1
    case Third => 2
    case FirstOrThird => 3
  }
  function NumberPosition(n: Number): nat { if n == SG then 0 else 1 }
  function BlockPosition(q: Request): nat { if !q.pftv then 0 else if q.t.None? then 1 else 2 }
  function BoolPosition(b: bool): nat { if b then 1 else 0 }
  function StemPosition(s: Stem): nat {
    match s
    case G => 0
    case D => 1
    case Sh => 2
    case N => 3
  }

  /** `pftv` and `t` as one of the three blocks passes them, and no dative. */
  predicate SomeBlock(q: Request) {
    q.dat.None? && (q.t.None? || (q.pftv && q.t == Some(T)))
  }

  /**
   * The calls of `add_forms(acc)`, described without the loops: a verb of the list, the given
   * object, no dative, `t` only in the perfective, a person among 1, 2, 3, and no subjunctive
   * together with the ventive.
   */
  predicate Enumerated(vs: seq<Verb>, c: Call, acc: Option<Agreement>) {
    c.v in vs && c.q.acc == acc && SomeBlock(c.q) && c.q.p.p != FirstOrThird && (c.q.vent ==> !c.q.subj)
  }

  /** Each loop visits a value at its position. */
  lemma GenderAt(k: nat, g: Gender)
    requires k < |Genders|
    ensures Genders[k] == g <==> GenderPosition(g) == k
  {
  }

  lemma PersonAt(k: nat, p: Person)
    requires k < |Persons|
    ensures Persons[k] == p <==> PersonPosition(p) == k
  {
  }

  lemma NumberAt(k: nat, n: Number)
    requires k < |Numbers|
    ensures Numbers[k] == n <==> NumberPosition(n) == k
  {
  }

  lemma BlockAt(k: nat, q: Request)
    requires k < |Blocks|
    ensures InBlock(q, Blocks[k]) <==> SomeBlock(q) && BlockPosition(q) == k
  {
  }

  lemma BoolAt(k: nat, b: bool)
    requires k < |Bools|
    ensures Bools[k] == b <==> BoolPosition(b) == k
  {
  }

  lemma StemAt(k: nat, s: Stem)
    requires k < |Stems|
    ensures Stems[k] == s <==> StemPosition(s) == k
  {
  }

  lemma {:induction false} GenderCallsExactly(v: Verb, fr: Frame, b: Block, n: Number, p: Person, k: nat, c: Call)
    requires |v.root| >= 2 && k <= |Genders|
    ensures c in CallsFrom(GenderLoop(v, fr, b, n, p), k) <==>
            c.v == v && FrameOf(c) == fr && InBlock(c.q, b) && c.q.p.n == n && c.q.p.p == p &&
            k <= GenderPosition(c.q.p.g)
    decreases |Genders| - k
  {
    if k < |Genders| {
      GenderCallsExactly(v, fr, b, n, p, k + 1, c);
      GenderAt(k, c.q.p.g);
      assert CallsFrom(GenderLoop(v, fr, b, n, p), k) ==
             [CallFor(v, fr, b, Agreement(p, Genders[k], n))] + CallsFrom(GenderLoop(v, fr, b, n, p), k + 1);
    }
  }

  lemma {:induction false} PersonCallsExactly(v: Verb, fr: Frame, b: Block, n: Number, k: nat, c: Call)
    requires |v.root| >= 2 && k <= |Persons|
    ensures c in CallsFrom(PersonLoop(v, fr, b, n), k) <==>
            c.v == v && FrameOf(c) == fr && InBlock(c.q, b) && c.q.p.n == n && k <= PersonPosition(c.q.p.p) < 3
    decreases |Persons| - k
  {
    if k < |Persons| {
      PersonCallsExactly(v, fr, b, n, k + 1, c);
      GenderCallsExactly(v, fr, b, n, Persons[k], 0, c);
      PersonAt(k, c.q.p.p);
    }
  }

  lemma {:induction false} NumberCallsExactly(v: Verb, fr: Frame, b: Block, k: nat, c: Call)
    requires |v.root| >= 2 && k <= |Numbers|
    ensures c in CallsFrom(NumberLoop(v, fr, b), k) <==>
            c.v == v && FrameOf(c) == fr && InBlock(c.q, b) && k <= NumberPosition(c.q.p.n) &&
            c.q.p.p != FirstOrThird
    decreases |Numbers| - k
  {
    if k < |Numbers| {
      NumberCallsExactly(v, fr, b, k + 1, c);
      PersonCallsExactly(v, fr, b, Numbers[k], 0, c);
      NumberAt(k, c.q.p.n);
    }
  }

  lemma {:induction false} BlockCallsExactly(v: Verb, fr: Frame, k: nat, c: Call)
    requires |v.root| >= 2 && k <= |Blocks|
    ensures c in CallsFrom(BlockLoop(v, fr), k) <==>
            c.v == v && FrameOf(c) == fr && SomeBlock(c.q) && k <= BlockPosition(c.q) && c.q.p.p != FirstOrThird
    decreases |Blocks| - k
  {
    if k < |Blocks| {
      BlockCallsExactly(v, fr, k + 1, c);
      NumberCallsExactly(v, fr, Blocks[k], 0, c);
      BlockAt(k, c.q);
    }
  }

  /** `v` is among `vs[k..]`, looked for one verb at a time. */
  predicate ListedFrom(vs: seq<Verb>, v: Verb, k: nat)
    decreases |vs| - k
  {
    k < |vs| && (vs[k] == v || ListedFrom(vs, v, k + 1))
  }

  lemma {:induction false} ListedFromIn(vs: seq<Verb>, v: Verb, k: nat)
    requires k <= |vs|
    ensures ListedFrom(vs, v, k) <==> v in vs[k..]
    decreases |vs| - k
  {
    if k < |vs| {
      ListedFromIn(vs, v, k + 1);
      assert vs[k..] == [vs[k]] + vs[k + 1..];
    }
  }

  lemma {:induction false} VerbCallsExactly(vs: seq<Verb>, fr: Frame, k: nat, c: Call)
    requires Roots(vs) && k <= |vs|
    ensures c in CallsFrom(VerbLoop(vs, fr), k) <==>
            ListedFrom(vs, c.v, k) && FrameOf(c) == fr && SomeBlock(c.q) && c.q.p.p != FirstOrThird
    decreases |vs| - k
  {
    if k < |vs| {
      assert CallsFrom(VerbLoop(vs, fr), k) == CallsFrom(BlockLoop(vs[k], fr), 0) + CallsFrom(VerbLoop(vs, fr), k + 1);
      VerbCallsExactly(vs, fr, k + 1, c);
      BlockCallsExactly(vs[k], fr, 0, c);
    }
  }

  lemma {:induction false} SubjCallsExactly(vs: seq<Verb>, stem: Stem, conj: bool, vent: bool, acc: Option<Agreement>, k: nat, c: Call)
    requires Roots(vs) && k <= |SubjChoices(vent)|
    ensures c in CallsFrom(SubjLoop(vs, acc, stem, conj, vent), k) <==>
            ListedFrom(vs, c.v, 0) && c.q.stem == stem && c.q.conj == conj && c.q.vent == vent && c.q.acc == acc &&
            SomeBlock(c.q) && c.q.p.p != FirstOrThird && k <= BoolPosition(c.q.subj) < |SubjChoices(vent)|
    decreases |SubjChoices(vent)| - k
  {
    if k < |SubjChoices(vent)| {
      SubjCallsExactly(vs, stem, conj, vent, acc, k + 1, c);
      VerbCallsExactly(vs, Frame(stem, conj, vent, SubjChoices(vent)[k], acc), 0, c);
      BoolAt(k, c.q.subj);
    }
  }

  lemma {:induction false} VentCallsExactly(vs: seq<Verb>, stem: Stem, conj: bool, acc: Option<Agreement>, k: nat, c: Call)
    requires Roots(vs) && k <= |Bools|
    ensures c in CallsFrom(VentLoop(vs, acc, stem, conj), k) <==>
            ListedFrom(vs, c.v, 0) && c.q.stem == stem && c.q.conj == conj && c.q.acc == acc && SomeBlock(c.q) &&
            c.q.p.p != FirstOrThird && (c.q.vent ==> !c.q.subj) && k <= BoolPosition(c.q.vent)
    decreases |Bools| - k
  {
    if k < |Bools| {
      VentCallsExactly(vs, stem, conj, acc, k + 1, c);
      SubjCallsExactly(vs, stem, conj, Bools[k], acc, 0, c);
      BoolAt(k, c.q.vent);
    }
  }

  lemma {:induction false} ConjCallsExactly(vs: seq<Verb>, stem: Stem, acc: Option<Agreement>, k: nat, c: Call)
    requires Roots(vs) && k <= |Bools|
    ensures c in CallsFrom(ConjLoop(vs, acc, stem), k) <==>
            ListedFrom(vs, c.v, 0) && c.q.stem == stem && c.q.acc == acc && SomeBlock(c.q) &&
            c.q.p.p != FirstOrThird && (c.q.vent ==> !c.q.subj) && k <= BoolPosition(c.q.conj)
    decreases |Bools| - k
  {
    if k < |Bools| {
      ConjCallsExactly(vs, stem, acc, k + 1, c);
      VentCallsExactly(vs, stem, Bools[k], acc, 0, c);
      BoolAt(k, c.q.conj);
    }
  }

  lemma {:induction false} StemCallsExactly(vs: seq<Verb>, acc: Option<Agreement>, k: nat, c: Call)
    requires Roots(vs) && k <= |Stems|
    ensures c in CallsFrom(StemLoop(vs, acc), k) <==>
            ListedFrom(vs, c.v, 0) && c.q.acc == acc && SomeBlock(c.q) && c.q.p.p != FirstOrThird &&
            (c.q.vent ==> !c.q.subj) && k <= StemPosition(c.q.stem)
    decreases |Stems| - k
  {
    if k < |Stems| {
      StemCallsExactly(vs, acc, k + 1, c);
      ConjCallsExactly(vs, Stems[k], acc, 0, c);
      StemAt(k, c.q.stem);
    }
  }

  /**
   * `add_forms(acc)` makes exactly the calls `Enumerated` describes: every stem, conjunction,
   * ventive and mood, every verb, both aspects and the perfective with `t`, every person, gender
   * and number, and nothing else.
   */
  lemma AddFormsCallsExactly(vs: seq<Verb>, acc: Option<Agreement>, c: Call)
    requires Roots(vs)
    ensures c in AddFormsCalls(vs, acc) <==> Enumerated(vs, c, acc)
  {
    StemCallsExactly(vs, acc, 0, c);
    ListedFromIn(vs, c.v, 0);
    assert vs[0..] == vs;
  }

  // ---------------------------------------------------------------- the tables

  /** `forms_to_glosses`: surface text, then gloss key, to the decomposition. */
  type Forms = map<string, map<string, Cascade.Decomposition>>

  /** What `durative` or `perfective` returns for a call, or the exception it raises (grammar.py:630-633). */
  function Generated(c: FormCall): Result<Cascade.Decomposition, CascadeError> {
    Cascade.Decomposed(c.v.root, Underlying(c.v, c.q))
  }

  /** The call each block makes: `durative` in the first, `perfective` in the other two (lexicon.py:55, 60, 65). */
  method Form(c: FormCall) returns (d: Result<Cascade.Decomposition, CascadeError>)
    ensures d == Generated(c)
  {
    if c.q.pftv {
      d := PerfectiveForm(c.v, c.q);
    } else {
      d := DurativeForm(c.v, c.q);
    }
    assert c.q.(pftv := c.q.pftv) == c.q;
  }

  /** `forms_to_glosses[gloss.text()][str(gloss)] = gloss` (lexicon.py:56, 61, 66). */
  function Store(forms: Forms, key: Cascade.Decomposition -> string, d: Cascade.Decomposition): Forms {
    var text := Cascade.SurfaceText(d);
    forms[text := (if text in forms then forms[text] else map[])[key(d) := d]]
  }

  /** `durative` and `perfective` as a value, so that a run can be stated for any generator. */
  type Generator = FormCall -> Result<Cascade.Decomposition, CascadeError>

  /** The tables after a run of calls, and the exception that ended it, if one did. */
  datatype Outcome = Outcome(forms: Forms, error: Option<CascadeError>)

  /** The calls in order, each decomposition stored as it is made; the first exception stops the run. */
  function Run(forms: Forms, key: Cascade.Decomposition -> string, gen: Generator, calls: seq<FormCall>): Outcome
    decreases |calls|
  {
    if calls == [] then Outcome(forms, None)
    else
      match gen(calls[0])
      case Failure(e) => Outcome(forms, Some(e))
      case Success(d) => Run(Store(forms, key, d), key, gen, calls[1..])
  }

  /** A run over two lists of calls is the run over the first, then, unless it failed, the second. */
  lemma {:induction false} RunAppend(forms: Forms, key: Cascade.Decomposition -> string, gen: Generator, a: seq<FormCall>,
                                     b: seq<FormCall>)
    decreases |a|
    ensures var o := Run(forms, key, gen, a);
            Run(forms, key, gen, a + b) == if o.error.Some? then o else Run(o.forms, key, gen, b)
  {
    if a != [] {
      assert (a + b)[0] == a[0] && (a + b)[1..] == a[1..] + b;
      match gen(a[0])
      case Failure(e) =>
      case Success(d) =>
        RunAppend(Store(forms, key, d), key, gen, a[1..], b);
    } else {
      assert a + b == b;
    }
  }

  /** Every entry sits under its own surface text and its own gloss key. */
  predicate Consistent(forms: Forms, key: Cascade.Decomposition -> string) {
    forall text, gloss :: text in forms && gloss in forms[text] ==>
      Cascade.SurfaceText(forms[text][gloss]) == text && key(forms[text][gloss]) == gloss
  }

  /** No text and no gloss key is ever removed. */
  predicate Grows(before: Forms, after: Forms) {
    forall text :: text in before ==> text in after && before[text].Keys <= after[text].Keys
  }

  /**
   * A store files `d` under its text and key, adds only that key, replaces only an entry with that
   * key, and keeps every entry where it belongs.
   */
  lemma StoreFiles(forms: Forms, key: Cascade.Decomposition -> string, d: Cascade.Decomposition)
    ensures var r, text := Store(forms, key, d), Cascade.SurfaceText(d);
            text in r && key(d) in r[text] && r[text][key(d)] == d &&
            r[text].Keys == (if text in forms then forms[text].Keys else {}) + {key(d)} &&
            (forall t :: t in forms && t != text ==> t in r && r[t] == forms[t]) &&
            (forall g :: text in forms && g in forms[text] && g != key(d) ==> r[text][g] == forms[text][g]) &&
            r.Keys == forms.Keys + {text} && Grows(forms, r) &&
            (Consistent(forms, key) ==> Consistent(r, key))
  {
  }

  /** Homophones coexist: two glosses of one text under different keys are both kept. */
  lemma HomophonesCoexist(forms: Forms, key: Cascade.Decomposition -> string, d1: Cascade.Decomposition,
                          d2: Cascade.Decomposition)
    requires Cascade.SurfaceText(d1) == Cascade.SurfaceText(d2) && key(d1) != key(d2)
    ensures var r, text := Store(Store(forms, key, d1), key, d2), Cascade.SurfaceText(d1);
            text in r && key(d1) in r[text] && r[text][key(d1)] == d1 && key(d2) in r[text] && r[text][key(d2)] == d2
  {
    StoreFiles(forms, key, d1);
    StoreFiles(Store(forms, key, d1), key, d2);
  }

  /** A run keeps every entry where it belongs and removes nothing. */
  lemma {:induction false} RunKeeps(forms: Forms, key: Cascade.Decomposition -> string, gen: Generator, calls: seq<FormCall>)
    ensures Grows(forms, Run(forms, key, gen, calls).forms)
    ensures Consistent(forms, key) ==> Consistent(Run(forms, key, gen, calls).forms, key)
    decreases |calls|
  {
    if calls != [] {
      match gen(calls[0])
      case Failure(e) =>
      case Success(d) =>
        StoreFiles(forms, key, d);
        RunKeeps(Store(forms, key, d), key, gen, calls[1..]);
    }
  }

  /** A form made by a run that raised nothing is still filed at the end: only a later equal key replaces it. */
  lemma {:induction false} RunFiles(forms: Forms, key: Cascade.Decomposition -> string, gen: Generator, calls: seq<FormCall>, j: nat)
    requires j < |calls| && Run(forms, key, gen, calls).error.None?
    ensures gen(calls[j]).Success?
    ensures var d, r := gen(calls[j]).value, Run(forms, key, gen, calls).forms;
            Cascade.SurfaceText(d) in r && key(d) in r[Cascade.SurfaceText(d)]
    decreases j
  {
    var d := gen(calls[0]).value;
    StoreFiles(forms, key, d);
    if j == 0 {
      RunKeeps(Store(forms, key, d), key, gen, calls[1..]);
    } else {
      RunFiles(Store(forms, key, d), key, gen, calls[1..], j - 1);
    }
  }

  // ---------------------------------------------------------------- shortened_forms_to_forms

  /** The spellings without vowel length of a set of texts. */
  function Shortened(forms: set<string>): set<string> {
    set f | f in forms :: ShortenVowels(f)
  }

  /** The texts of a set that spell `k` without vowel length. */
  function Spelling(forms: set<string>, k: string): set<string> {
    set f | f in forms && ShortenVowels(f) == k
  }

  /** `shortened_forms_to_forms` after the texts of `forms` are filed on top of `buckets` (lexicon.py:74-75). */
  function Folded(buckets: map<string, set<string>>, forms: set<string>): map<string, set<string>> {
    map k | k in buckets.Keys + Shortened(forms) :: (if k in buckets then buckets[k] else {}) + Spelling(forms, k)
  }

  /** Every member of a bucket spells the bucket's key without vowel length. */
  predicate Bucketed(buckets: map<string, set<string>>) {
    forall k, f :: k in buckets && f in buckets[k] ==> ShortenVowels(f) == k
  }

  /**
   * After filing, every text sits in the bucket of its spelling without vowel length, each bucket
   * holds only texts with that spelling, and nothing else was added.
   */
  lemma FoldedBuckets(buckets: map<string, set<string>>, forms: set<string>)
    requires Bucketed(buckets)
    ensures var r := Folded(buckets, forms);
            Bucketed(r) &&
            (forall f :: f in forms ==> ShortenVowels(f) in r && f in r[ShortenVowels(f)]) &&
            (forall k, f :: k in r && f in r[k] ==> f in forms || (k in buckets && f in buckets[k]))
  {
    var r := Folded(buckets, forms);
    forall f | f in forms
      ensures ShortenVowels(f) in r && f in r[ShortenVowels(f)]
    {
      assert ShortenVowels(f) in Shortened(forms);
      assert f in Spelling(forms, ShortenVowels(f));
    }
  }

  /** Starting from empty buckets, every key is its own spelling without vowel length (grammar.py:18-19). */
  lemma BucketKeysAreShort(forms: set<string>)
    ensures forall k :: k in Folded(map[], forms) ==> ShortenVowels(k) == k
  {
    forall k | k in Folded(map[], forms)
      ensures ShortenVowels(k) == k
    {
      var f :| f in forms && ShortenVowels(f) == k;
      ShortenVowelsIdempotent(f);
    }
  }

  lemma FoldedNothing(buckets: map<string, set<string>>)
    ensures Folded(buckets, {}) == buckets
  {
    var r := Folded(buckets, {});
    assert r.Keys == buckets.Keys;
    forall k | k in buckets
      ensures r[k] == buckets[k]
    {
      assert Spelling({}, k) == {};
    }
  }

  /** Filing one more text adds its spelling, and only that. */
  lemma ShortenedAdd(done: set<string>, form: string)
    ensures Shortened(done + {form}) == Shortened(done) + {ShortenVowels(form)}
  {
    assert ShortenVowels(form) in Shortened(done + {form});
  }

  /** A spelling nobody has gathers no text. */
  lemma SpellingNone(done: set<string>, j: string)
    ensures j !in Shortened(done) ==> Spelling(done, j) == {}
  {
    if Spelling(done, j) != {} {
      var f :| f in Spelling(done, j);
      assert j in Shortened(done);
    }
  }

  /** Filing one more text adds it to its own spelling and to no other. */
  lemma SpellingAdd(done: set<string>, form: string, j: string)
    ensures Spelling(done + {form}, j) == if ShortenVowels(form) == j then Spelling(done, j) + {form} else Spelling(done, j)
  {
  }

  /** One bucket after filing one more text. */
  lemma FoldedAt(buckets: map<string, set<string>>, done: set<string>, form: string, j: string)
    requires j in buckets.Keys + Shortened(done) + {ShortenVowels(form)}
    ensures var b, k := Folded(buckets, done), ShortenVowels(form);
            j in Folded(buckets, done + {form}) &&
            Folded(buckets, done + {form})[j] == if j == k then (if k in b then b[k] else {}) + {form} else b[j]
  {
    var b := Folded(buckets, done);
    ShortenedAdd(done, form);
    SpellingAdd(done, form, j);
    SpellingNone(done, j);
  }

  /** Filing one more text adds it to its bucket and changes nothing else. */
  lemma FoldedStep(buckets: map<string, set<string>>, done: set<string>, form: string)
    ensures var b, k := Folded(buckets, done), ShortenVowels(form);
            Folded(buckets, done + {form}) == b[k := (if k in b then b[k] else {}) + {form}]
  {
    var b, k := Folded(buckets, done), ShortenVowels(form);
    var lhs, rhs := Folded(buckets, done + {form}), b[k := (if k in b then b[k] else {}) + {form}];
    ShortenedAdd(done, form);
    assert lhs.Keys == rhs.Keys;
    forall j | j in lhs
      ensures lhs[j] == rhs[j]
    {
      FoldedAt(buckets, done, form, j);
    }
  }

  // ---------------------------------------------------------------- the module state

  /** `add_forms` on the tables as values: a loaded object changes nothing (lexicon.py:41-66). */
  datatype Tables = Tables(forms: Forms, loaded: set<Option<Agreement>>)

  datatype Loaded = Loaded(tables: Tables, error: Option<CascadeError>)

  function AddFormsTo(t: Tables, key: Cascade.Decomposition -> string, gen: Generator, vs: seq<Verb>,
                      acc: Option<Agreement>): Loaded
    requires Roots(vs)
  {
    if acc in t.loaded then Loaded(t, None)
    else
      var o := Run(t.forms, key, gen, AddFormsCalls(vs, acc));
      Loaded(Tables(o.forms, t.loaded + {acc}), o.error)
  }

  /** `add_forms` for each object in turn; an exception stops the load (lexicon.py:68-72). */
  function LoadAll(t: Tables, key: Cascade.Decomposition -> string, gen: Generator, vs: seq<Verb>,
                   accs: seq<Option<Agreement>>): Loaded
    requires Roots(vs)
    decreases |accs|
  {
    if accs == [] then Loaded(t, None)
    else
      var l := AddFormsTo(t, key, gen, vs, accs[0]);
      if l.error.Some? then l else LoadAll(l.tables, key, gen, vs, accs[1..])
  }

  /**
   * After an `add_forms(acc)` that raised nothing, every form it enumerates was generated without
   * an exception and is filed under its surface text and its gloss key.
   */
  lemma AddFormsFiles(t: Tables, key: Cascade.Decomposition -> string, gen: Generator, vs: seq<Verb>,
                      acc: Option<Agreement>, c: FormCall)
    requires Roots(vs) && acc !in t.loaded && Enumerated(vs, c, acc)
    requires AddFormsTo(t, key, gen, vs, acc).error.None?
    ensures gen(c).Success?
    ensures var d, r := gen(c).value, AddFormsTo(t, key, gen, vs, acc).tables.forms;
            Cascade.SurfaceText(d) in r && key(d) in r[Cascade.SurfaceText(d)]
  {
    var calls := AddFormsCalls(vs, acc);
    AddFormsCallsExactly(vs, acc, c);
    var j :| 0 <= j < |calls| && calls[j] == c;
    RunFiles(t.forms, key, gen, calls, j);
  }

  /** `add_forms(acc)` marks `acc` loaded, and a second call with the same object changes nothing (lexicon.py:41-44). */
  lemma AddFormsMemo(t: Tables, key: Cascade.Decomposition -> string, gen: Generator, vs: seq<Verb>,
                     acc: Option<Agreement>)
    requires Roots(vs)
    ensures var l := AddFormsTo(t, key, gen, vs, acc);
            acc in l.tables.loaded && t.loaded <= l.tables.loaded &&
            AddFormsTo(l.tables, key, gen, vs, acc) == Loaded(l.tables, None)
  {
  }

  /** A load removes no text and no gloss key, and keeps every entry under its own text and key. */
  lemma {:induction false} LoadAllKeeps(t: Tables, key: Cascade.Decomposition -> string, gen: Generator, vs: seq<Verb>,
                                        accs: seq<Option<Agreement>>)
    requires Roots(vs)
    ensures Grows(t.forms, LoadAll(t, key, gen, vs, accs).tables.forms)
    ensures Consistent(t.forms, key) ==> Consistent(LoadAll(t, key, gen, vs, accs).tables.forms, key)
    decreases |accs|
  {
    if accs != [] {
      var l := AddFormsTo(t, key, gen, vs, accs[0]);
      if accs[0] !in t.loaded {
        RunKeeps(t.forms, key, gen, AddFormsCalls(vs, accs[0]));
      }
      if l.error.None? {
        LoadAllKeeps(l.tables, key, gen, vs, accs[1..]);
      }
    }
  }

  /** No object, then `(p, g, n)` for each number, person and gender, in the loops' order (lexicon.py:68-72). */
  const Accs: seq<Option<Agreement>> := [
    None,
    Some(Agreement(First, M, SG)), Some(Agreement(First, F, SG)), Some(Agreement(Second, M, SG)),
    Some(Agreement(Second, F, SG)), Some(Agreement(Third, M, SG)), Some(Agreement(Third, F, SG)),
    Some(Agreement(First, M, PL)), Some(Agreement(First, F, PL)), Some(Agreement(Second, M, PL)),
    Some(Agreement(Second, F, PL)), Some(Agreement(Third, M, PL)), Some(Agreement(Third, F, PL))
  ]

  /** The three module-level tables of lexicon.py:36-39, and the gloss key `str(gloss)`. */
  class Index {
    const key: Cascade.Decomposition -> string
    const gen: Generator
    const verbs: seq<Verb>
    var formsToGlosses: Forms
    var shortenedFormsToForms: map<string, set<string>>
    var loadedAccs: set<Option<Agreement>>

    /** The tables as the module starts them: all empty. */
    constructor (key: Cascade.Decomposition -> string, gen: Generator, verbs: seq<Verb>)
      ensures this.key == key && this.gen == gen && this.verbs == verbs
      ensures formsToGlosses == map[] && shortenedFormsToForms == map[] && loadedAccs == {}
    {
      this.key := key;
      this.gen := gen;
      this.verbs := verbs;
      formsToGlosses := map[];
      shortenedFormsToForms := map[];
      loadedAccs := {};
    }

    /**
     * `add_forms` (lexicon.py:41-66): an object already loaded changes nothing; otherwise it is
     * marked loaded first, then every form is generated and filed.
     */
    method AddForms(acc: Option<Agreement>) returns (r: Result<(), CascadeError>)
      requires Roots(verbs)
      modifies this`formsToGlosses, this`loadedAccs
      ensures var l := AddFormsTo(Tables(old(formsToGlosses), old(loadedAccs)), key, gen, verbs, acc);
              formsToGlosses == l.tables.forms && loadedAccs == l.tables.loaded && ErrorOf(r) == l.error
    {
      if acc in loadedAccs {
        return Success(());
      }
      loadedAccs := loadedAccs + {acc};
      ghost var total := Run(formsToGlosses, key, gen, AddFormsCalls(verbs, acc));
      var k := 0;
      while k < |Stems|
        invariant k <= |Stems| && loadedAccs == old(loadedAccs) + {acc}
        invariant Run(formsToGlosses, key, gen, CallsFrom(StemLoop(verbs, acc), k)) == total
      {
        ghost var before := formsToGlosses;
        r := AddStem(Stems[k], acc);
        RunAppend(before, key, gen, CallsFrom(ConjLoop(verbs, acc, Stems[k]), 0), CallsFrom(StemLoop(verbs, acc), k + 1));
        if r.Failure? {
          return;
        }
        k := k + 1;
      }
      r := Success(());
    }

    /** One turn of `for stem in Stem` (lexicon.py:48-66). */
    method AddStem(stem: Stem, acc: Option<Agreement>) returns (r: Result<(), CascadeError>)
      requires Roots(verbs)
      modifies this`formsToGlosses
      ensures var o := Run(old(formsToGlosses), key, gen, CallsFrom(ConjLoop(verbs, acc, stem), 0));
              formsToGlosses == o.forms && ErrorOf(r) == o.error
    {
      ghost var total := Run(formsToGlosses, key, gen, CallsFrom(ConjLoop(verbs, acc, stem), 0));
      var k := 0;
      while k < |Bools|
        invariant k <= |Bools|
        invariant Run(formsToGlosses, key, gen, CallsFrom(ConjLoop(verbs, acc, stem), k)) == total
      {
        ghost var before := formsToGlosses;
        r := AddConj(stem, Bools[k], acc);
        RunAppend(before, key, gen, CallsFrom(VentLoop(verbs, acc, stem, Bools[k]), 0), CallsFrom(ConjLoop(verbs, acc, stem), k + 1));
        if r.Failure? {
          return;
        }
        k := k + 1;
      }
      r := Success(());
    }

    /** One turn of `for conj in (False, True)` (lexicon.py:49-66). */
    method AddConj(stem: Stem, conj: bool, acc: Option<Agreement>) returns (r: Result<(), CascadeError>)
      requires Roots(verbs)
      modifies this`formsToGlosses
      ensures var o := Run(old(formsToGlosses), key, gen, CallsFrom(VentLoop(verbs, acc, stem, conj), 0));
              formsToGlosses == o.forms && ErrorOf(r) == o.error
    {
      ghost var total := Run(formsToGlosses, key, gen, CallsFrom(VentLoop(verbs, acc, stem, conj), 0));
      var k := 0;
      while k < |Bools|
        invariant k <= |Bools|
        invariant Run(formsToGlosses, key, gen, CallsFrom(VentLoop(verbs, acc, stem, conj), k)) == total
      {
        ghost var before := formsToGlosses;
        r := AddVent(stem, conj, Bools[k], acc);
        RunAppend(before, key, gen, CallsFrom(SubjLoop(verbs, acc, stem, conj, Bools[k]), 0), CallsFrom(VentLoop(verbs, acc, stem, conj), k + 1));
        if r.Failure? {
          return;
        }
        k := k + 1;
      }
      r := Success(());
    }

    /** One turn of `for vent in (False, True)` (lexicon.py:50-66). */
    method AddVent(stem: Stem, conj: bool, vent: bool, acc: Option<Agreement>) returns (r: Result<(), CascadeError>)
      requires Roots(verbs)
      modifies this`formsToGlosses
      ensures var o := Run(old(formsToGlosses), key, gen, CallsFrom(SubjLoop(verbs, acc, stem, conj, vent), 0));
              formsToGlosses == o.forms && ErrorOf(r) == o.error
    {
      ghost var total := Run(formsToGlosses, key, gen, CallsFrom(SubjLoop(verbs, acc, stem, conj, vent), 0));
      var choices := if vent then [false] else [false, true];
      var k := 0;
      while k < |choices|
        invariant choices == SubjChoices(vent) && k <= |choices|
        invariant Run(formsToGlosses, key, gen, CallsFrom(SubjLoop(verbs, acc, stem, conj, vent), k)) == total
      {
        ghost var before := formsToGlosses;
        var fr := Frame(stem, conj, vent, choices[k], acc);
        r := AddVerbs(fr);
        RunAppend(before, key, gen, CallsFrom(VerbLoop(verbs, fr), 0), CallsFrom(SubjLoop(verbs, acc, stem, conj, vent), k + 1));
        if r.Failure? {
          return;
        }
        k := k + 1;
      }
      r := Success(());
    }

    /** One turn of `for subj` (lexicon.py:51-66). */
    method AddVerbs(fr: Frame) returns (r: Result<(), CascadeError>)
      requires Roots(verbs)
      modifies this`formsToGlosses
      ensures var o := Run(old(formsToGlosses), key, gen, CallsFrom(VerbLoop(verbs, fr), 0));
              formsToGlosses == o.forms && ErrorOf(r) == o.error
    {
      ghost var total := Run(formsToGlosses, key, gen, CallsFrom(VerbLoop(verbs, fr), 0));
      var k := 0;
      while k < |verbs|
        invariant k <= |verbs|
        invariant Run(formsToGlosses, key, gen, CallsFrom(VerbLoop(verbs, fr), k)) == total
      {
        ghost var before := formsToGlosses;
        r := AddVerb(verbs[k], fr);
        RunAppend(before, key, gen, CallsFrom(BlockLoop(verbs[k], fr), 0), CallsFrom(VerbLoop(verbs, fr), k + 1));
        if r.Failure? {
          return;
        }
        k := k + 1;
      }
      r := Success(());
    }

    /** One turn of `for verb in verbs`: the durative, perfective and perfective-with-`t` blocks (lexicon.py:52-66). */
    method AddVerb(v: Verb, fr: Frame) returns (r: Result<(), CascadeError>)
      requires |v.root| >= 2
      modifies this`formsToGlosses
      ensures var o := Run(old(formsToGlosses), key, gen, CallsFrom(BlockLoop(v, fr), 0));
              formsToGlosses == o.forms && ErrorOf(r) == o.error
    {
      ghost var total := Run(formsToGlosses, key, gen, CallsFrom(BlockLoop(v, fr), 0));
      var k := 0;
      while k < |Blocks|
        invariant k <= |Blocks|
        invariant Run(formsToGlosses, key, gen, CallsFrom(BlockLoop(v, fr), k)) == total
      {
        ghost var before := formsToGlosses;
        r := AddBlock(v, fr, Blocks[k]);
        RunAppend(before, key, gen, CallsFrom(NumberLoop(v, fr, Blocks[k]), 0), CallsFrom(BlockLoop(v, fr), k + 1));
        if r.Failure? {
          return;
        }
        k := k + 1;
      }
      r := Success(());
    }

    /** One block: `for n in Number` (lexicon.py:52-56, 57-61, 62-66). */
    method AddBlock(v: Verb, fr: Frame, b: Block) returns (r: Result<(), CascadeError>)
      requires |v.root| >= 2
      modifies this`formsToGlosses
      ensures var o := Run(old(formsToGlosses), key, gen, CallsFrom(NumberLoop(v, fr, b), 0));
              formsToGlosses == o.forms && ErrorOf(r) == o.error
    {
      ghost var total := Run(formsToGlosses, key, gen, CallsFrom(NumberLoop(v, fr, b), 0));
      var k := 0;
      while k < |Numbers|
        invariant k <= |Numbers|
        invariant Run(formsToGlosses, key, gen, CallsFrom(NumberLoop(v, fr, b), k)) == total
      {
        ghost var before := formsToGlosses;
        r := AddNumber(v, fr, b, Numbers[k]);
        RunAppend(before, key, gen, CallsFrom(PersonLoop(v, fr, b, Numbers[k]), 0), CallsFrom(NumberLoop(v, fr, b), k + 1));
        if r.Failure? {
          return;
        }
        k := k + 1;
      }
      r := Success(());
    }

    /** One turn of `for n in Number`: `for p in (1, 2, 3)` (lexicon.py:53, 58, 63). */
    method AddNumber(v: Verb, fr: Frame, b: Block, n: Number) returns (r: Result<(), CascadeError>)
      requires |v.root| >= 2
      modifies this`formsToGlosses
      ensures var o := Run(old(formsToGlosses), key, gen, CallsFrom(PersonLoop(v, fr, b, n), 0));
              formsToGlosses == o.forms && ErrorOf(r) == o.error
    {
      ghost var total := Run(formsToGlosses, key, gen, CallsFrom(PersonLoop(v, fr, b, n), 0));
      var k := 0;
      while k < |Persons|
        invariant k <= |Persons|
        invariant Run(formsToGlosses, key, gen, CallsFrom(PersonLoop(v, fr, b, n), k)) == total
      {
        ghost var before := formsToGlosses;
        r := AddPerson(v, fr, b, n, Persons[k]);
        RunAppend(before, key, gen, CallsFrom(GenderLoop(v, fr, b, n, Persons[k]), 0), CallsFrom(PersonLoop(v, fr, b, n), k + 1));
        if r.Failure? {
          return;
        }
        k := k + 1;
      }
      r := Success(());
    }

    /** One turn of `for p`: `for g in Gender` (lexicon.py:54, 59, 64). */
    method AddPerson(v: Verb, fr: Frame, b: Block, n: Number, p: Person) returns (r: Result<(), CascadeError>)
      requires |v.root| >= 2
      modifies this`formsToGlosses
      ensures var o := Run(old(formsToGlosses), key, gen, CallsFrom(GenderLoop(v, fr, b, n, p), 0));
              formsToGlosses == o.forms && ErrorOf(r) == o.error
    {
      ghost var total := Run(formsToGlosses, key, gen, CallsFrom(GenderLoop(v, fr, b, n, p), 0));
      var k := 0;
      while k < |Genders|
        invariant k <= |Genders|
        invariant Run(formsToGlosses, key, gen, CallsFrom(GenderLoop(v, fr, b, n, p), k)) == total
      {
        ghost var before := formsToGlosses;
        var c := CallFor(v, fr, b, Agreement(p, Genders[k], n));
        r := AddForm(c);
        RunAppend(before, key, gen, [c], CallsFrom(GenderLoop(v, fr, b, n, p), k + 1));
        if r.Failure? {
          return;
        }
        k := k + 1;
      }
      r := Success(());
    }

    /** The innermost body (lexicon.py:55-56, 60-61, 65-66): one form, filed under its text and gloss key. */
    method AddForm(c: FormCall) returns (r: Result<(), CascadeError>)
      modifies this`formsToGlosses
      ensures var o := Run(old(formsToGlosses), key, gen, [c]);
              formsToGlosses == o.forms && ErrorOf(r) == o.error
    {
      var gloss := gen(c);
      if gloss.Failure? {
        return Failure(gloss.error);
      }
      formsToGlosses := Store(formsToGlosses, key, gloss.value);
      r := Success(());
    }

    /** `for form in forms_to_glosses: shortened_forms_to_forms[shorten_vowels(form)].add(form)` (lexicon.py:74-75). */
    method FoldForms()
      modifies this`shortenedFormsToForms
      ensures shortenedFormsToForms == Folded(old(shortenedFormsToForms), formsToGlosses.Keys)
    {
      var rest := formsToGlosses.Keys;
      FoldedNothing(shortenedFormsToForms);
      TakeNone(rest);
      while rest != {}
        invariant rest <= formsToGlosses.Keys
        invariant shortenedFormsToForms == Folded(old(shortenedFormsToForms), formsToGlosses.Keys - rest)
        decreases |rest|
      {
        var form :| form in rest;
        var k := ShortenVowels(form);
        FoldedStep(old(shortenedFormsToForms), formsToGlosses.Keys - rest, form);
        TakeOne(formsToGlosses.Keys, rest, form);
        shortenedFormsToForms := shortenedFormsToForms[k := (if k in shortenedFormsToForms then shortenedFormsToForms[k] else {}) + {form}];
        rest := rest - {form};
      }
      TakeNone(formsToGlosses.Keys);
    }
  }

  /** The turns left of a loop over a list: this one, then the rest. */
  lemma Unroll<T>(s: seq<T>, k: nat)
    requires k < |s|
    ensures s[k..] == [s[k]] + s[k + 1..]
  {
  }

  lemma TakeNone<T>(all: set<T>)
    ensures all - all == {} && all - {} == all
  {
  }

  /** Taking one more element out of what is left adds it to what is done. */
  lemma TakeOne<T>(all: set<T>, rest: set<T>, x: T)
    requires x in rest && rest <= all
    ensures (all - rest) + {x} == all - (rest - {x}) && rest - {x} <= all && |rest - {x}| < |rest|
  {
  }

  /** The exception a method reports, read off its result. */
  function ErrorOf(r: Result<(), CascadeError>): (e: Option<CascadeError>)
    ensures e.None? <==> r.Success?
    ensures r.Failure? ==> e == Some(r.error)
  {
    if r.Success? then None else Some(r.error)
  }

  /**
   * The module body (lexicon.py:68-75) over a list of verbs: empty tables, every object loaded
   * in turn, then, once all loads have succeeded, every text filed by its spelling without vowel
   * length.
   */
  method LoadFrom(key: Cascade.Decomposition -> string, gen: Generator, verbs: seq<Verb>)
    returns (ix: Index, r: Result<(), CascadeError>)
    requires Roots(verbs)
    ensures fresh(ix) && ix.key == key && ix.gen == gen && ix.verbs == verbs
    ensures var l := LoadAll(Tables(map[], {}), key, gen, verbs, Accs);
            ix.formsToGlosses == l.tables.forms && ix.loadedAccs == l.tables.loaded && ErrorOf(r) == l.error
    ensures ix.shortenedFormsToForms == if r.Success? then Folded(map[], ix.formsToGlosses.Keys) else map[]
  {
    ix := new Index(key, gen, verbs);
    ghost var total := LoadAll(Tables(map[], {}), key, gen, verbs, Accs);
    var k := 0;
    while k < |Accs|
      invariant k <= |Accs| && ix.key == key && ix.gen == gen && ix.verbs == verbs && ix.shortenedFormsToForms == map[]
      invariant LoadAll(Tables(ix.formsToGlosses, ix.loadedAccs), key, gen, verbs, Accs[k..]) == total
    {
      Unroll(Accs, k);
      r := ix.AddForms(Accs[k]);
      if r.Failure? {
        return;
      }
      k := k + 1;
    }
    ix.FoldForms();
    r := Success(());
  }

  /** The module as lexicon.py loads it: its own verb list (lexicon.py:6-34, 36-75). */
  method Load(key: Cascade.Decomposition -> string, gen: Generator) returns (ix: Index, r: Result<(), CascadeError>)
    ensures fresh(ix) && ix.key == key && ix.gen == gen && ix.verbs == VerbList
    ensures Roots(VerbList)
    ensures var l := LoadAll(Tables(map[], {}), key, gen, VerbList, Accs);
            ix.formsToGlosses == l.tables.forms && ix.loadedAccs == l.tables.loaded && ErrorOf(r) == l.error
    ensures ix.shortenedFormsToForms == if r.Success? then Folded(map[], ix.formsToGlosses.Keys) else map[]
  {
    RootsLong();
    ix, r := LoadFrom(key, gen, VerbList);
  }
}
