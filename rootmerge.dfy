/**
 * `merge_root_morphemes` (grammar.py:497-523): the morphemes from the first radical to the third
 * become one root morpheme glossed `√root`; a t or tan morpheme inside the root becomes an infix.
 */
module RootMerge {

  import opened Wrappers
  import opened Morphemes

  /** The local variables of the loop of grammar.py:498-502. */
  datatype RootScan = RootScan(text: string, functions: seq<Feature>, start: Option<nat>, end: Option<nat>,
                               infixes: seq<Infix>)

  function Init(root: string): RootScan {
    RootScan([], [Root(root)], None, None, [])
  }

  /** The features that are radicals, in order. */
  function Radicals(fs: seq<Feature>): (r: seq<Feature>)
    ensures forall f :: f in r <==> f in fs && f.Radical?
  {
    if fs == [] then [] else (if fs[0].Radical? then [fs[0]] else []) + Radicals(fs[1..])
  }

  /** The features that are not radicals, in order. */
  function NonRadicals(fs: seq<Feature>): (r: seq<Feature>)
    ensures forall f :: f in r <==> f in fs && !f.Radical?
  {
    if fs == [] then [] else (if fs[0].Radical? then [] else [fs[0]]) + NonRadicals(fs[1..])
  }

  /** The loop body for morpheme `i` (grammar.py:503-517). */
  function ScanStep(ms: seq<Morpheme>, i: nat, st: RootScan): (r: RootScan)
    requires i < |ms|
    ensures |st.functions| <= |r.functions| && r.functions[..|st.functions|] == st.functions
    ensures (st.start.Some? ==> r.start.Some?) && (st.end.Some? ==> r.end.Some?)
  {
    var m := ms[i];
    if st.start.Some? && IsTInfix(m.functions) then
      st.(infixes := st.infixes + [Infix(|st.text|, Plain(m.text, NonRadicals(m.functions)))],
          functions := st.functions + Radicals(m.functions))
    else
      var start := if Radical(1) in m.functions then Some(i) else st.start;
      var collecting := start.Some? && st.end.None?;
      var end := if Radical(3) in m.functions then Some(i) else st.end;
      RootScan(if collecting then st.text + m.text else st.text,
               if collecting then AppendNew(st.functions, m.functions) else st.functions,
               start, end, st.infixes)
  }

  /** The state after the first `i` morphemes. */
  function ScanTo(ms: seq<Morpheme>, root: string, i: nat): (r: RootScan)
    requires i <= |ms|
    ensures r.start.Some? ==> r.start.value < i
    ensures r.end.Some? ==> r.end.value < i
    ensures |r.functions| >= 1 && r.functions[0] == Root(root)
    decreases i
  {
    if i == 0 then Init(root) else ScanStep(ms, i - 1, ScanTo(ms, root, i - 1))
  }

  /** `list.remove(f)`: the first occurrence of `f` goes, and a missing one is an error. */
  function RemoveFirst(fs: seq<Feature>, f: Feature): (r: Option<seq<Feature>>)
    ensures r.None? <==> f !in fs
    ensures r.Some? ==> multiset(r.value) + multiset{f} == multiset(fs)
    ensures r.Some? && fs[0] != f ==> |r.value| > 0 && r.value[0] == fs[0]
  {
    if fs == [] then None
    else if fs[0] == f then
      assert fs == [fs[0]] + fs[1..];
      Some(fs[1..])
    else
      match RemoveFirst(fs[1..], f)
      case None => None
      case Some(rest) =>
        assert fs == [fs[0]] + fs[1..];
        Some([fs[0]] + rest)
  }

  /** The root morpheme the scan assembled, with its three radical features removed (grammar.py:518-523). */
  function RootMorpheme(st: RootScan): (r: Result<Morpheme, CascadeError>)
    requires |st.functions| >= 1 && !st.functions[0].Radical?
    ensures r.Success? ==> r.value.text == st.text && r.value.infixes == st.infixes
    ensures r.Success? ==> |r.value.functions| >= 1 && r.value.functions[0] == st.functions[0]
    ensures r.Failure? ==> r.error.RadicalMissing?
  {
    var fs := st.functions;
    match RemoveFirst(fs, Radical(1))
    case None => Failure(RadicalMissing(1))
    case Some(f1) =>
      match RemoveFirst(f1, Radical(2))
      case None => Failure(RadicalMissing(2))
      case Some(f2) =>
        match RemoveFirst(f2, Radical(3))
        case None => Failure(RadicalMissing(3))
        case Some(f3) => Success(Morpheme(st.text, f3, st.infixes))
  }

  /**
   * The root morpheme has one R₁, one R₂ and one R₃ fewer than the scan collected, and it fails
   * exactly when one of them is missing, naming the first one missing.
   */
  lemma RootMorphemeRadicals(st: RootScan)
    requires |st.functions| >= 1 && !st.functions[0].Radical?
    ensures var r := RootMorpheme(st);
            (r.Success? ==> multiset(r.value.functions) + multiset{Radical(1), Radical(2), Radical(3)} ==
                            multiset(st.functions)) &&
            (r == Failure(RadicalMissing(1)) <==> Radical(1) !in st.functions) &&
            (r == Failure(RadicalMissing(2)) <==> Radical(1) in st.functions && Radical(2) !in st.functions) &&
            (r == Failure(RadicalMissing(3)) <==>
               Radical(1) in st.functions && Radical(2) in st.functions && Radical(3) !in st.functions)
  {
    var fs := st.functions;
    var o1 := RemoveFirst(fs, Radical(1));
    if o1.Some? {
      var f1 := o1.value;
      RemoveKeeps(fs, f1, Radical(1), Radical(2));
      RemoveKeeps(fs, f1, Radical(1), Radical(3));
      var o2 := RemoveFirst(f1, Radical(2));
      if o2.Some? {
        var f2 := o2.value;
        RemoveKeeps(f1, f2, Radical(2), Radical(3));
        var o3 := RemoveFirst(f2, Radical(3));
        if o3.Some? {
          RemoveThree(fs, f1, f2, o3.value);
        }
      }
    }
  }

  lemma RemoveThree(fs: seq<Feature>, f1: seq<Feature>, f2: seq<Feature>, f3: seq<Feature>)
    requires multiset(f1) + multiset{Radical(1)} == multiset(fs)
    requires multiset(f2) + multiset{Radical(2)} == multiset(f1)
    requires multiset(f3) + multiset{Radical(3)} == multiset(f2)
    ensures multiset(f3) + multiset{Radical(1), Radical(2), Radical(3)} == multiset(fs)
  {
    assert multiset{Radical(1), Radical(2), Radical(3)} == multiset{Radical(3)} + multiset{Radical(2)} + multiset{Radical(1)};
  }

  /** Removing one feature keeps every other one. */
  lemma RemoveKeeps(fs: seq<Feature>, r: seq<Feature>, f: Feature, g: Feature)
    requires multiset(r) + multiset{f} == multiset(fs) && g != f
    ensures g in r <==> g in fs
  {
    assert multiset(r)[g] == multiset(fs)[g];
  }

  /** The whole pass; `if not root_end` also rejects a third radical in the first morpheme. */
  function MergeRoot(ms: seq<Morpheme>, root: string): (r: Result<seq<Morpheme>, CascadeError>)
    ensures r.Failure? ==> r.error == NoThirdRadical || r.error.RadicalMissing?
  {
    MergeScanned(ms, ScanTo(ms, root, |ms|))
  }

  /** What the pass does once the scan `st` of `ms` is complete (grammar.py:518-523). */
  function MergeScanned(ms: seq<Morpheme>, st: RootScan): (r: Result<seq<Morpheme>, CascadeError>)
    requires st.start.Some? ==> st.start.value < |ms|
    requires st.end.Some? ==> st.end.value < |ms|
    requires |st.functions| >= 1 && !st.functions[0].Radical?
    ensures r.Failure? ==> r.error == NoThirdRadical || r.error.RadicalMissing?
  {
    if st.end.None? || st.end.value == 0 then Failure(NoThirdRadical)
    else
      var merged :- RootMorpheme(st);
      var s := if st.start.Some? then st.start.value else |ms|;
      Success(ms[..s] + [merged] + ms[st.end.value + 1..])
  }

  // ---------------------------------------------------------------- without a third radical

  lemma {:induction false} EndOnlyAtThirdRadical(ms: seq<Morpheme>, root: string, i: nat)
    requires i <= |ms|
    ensures var st := ScanTo(ms, root, i);
            st.end.Some? ==> Radical(3) in ms[st.end.value].functions
    decreases i
  {
    if i > 0 {
      EndOnlyAtThirdRadical(ms, root, i - 1);
    }
  }

  /** Without a third radical after the first morpheme, the pass raises its `ValueError`. */
  lemma NoThirdRadicalFails(ms: seq<Morpheme>, root: string)
    requires forall x :: 0 < x < |ms| ==> Radical(3) !in ms[x].functions
    ensures MergeRoot(ms, root) == Failure(NoThirdRadical)
  {
    EndOnlyAtThirdRadical(ms, root, |ms|);
  }

  // ---------------------------------------------------------------- a well-formed root

  /**
   * The layout the verb forms produce: R₁ in morpheme `s` only, R₃ in morpheme `e` only, some R₂
   * between them, no morpheme with infixes, and at most one t or tan morpheme, strictly inside the
   * root and overt.
   */
  predicate RootLayout(ms: seq<Morpheme>, s: nat, e: nat) {
    0 < e < |ms| && s <= e && NoInfixes(ms) &&
    (forall x :: 0 <= x < |ms| ==> (Radical(1) in ms[x].functions <==> x == s)) &&
    (forall x :: 0 <= x < |ms| ==> (Radical(3) in ms[x].functions <==> x == e)) &&
    (exists x :: s <= x <= e && Radical(2) in ms[x].functions) &&
    (forall x :: 0 <= x < |ms| && IsTInfix(ms[x].functions) ==> x < s || (s < x < e && ms[x].text != [])) &&
    (forall x, y :: 0 <= x < y < |ms| && IsTInfix(ms[x].functions) ==> !IsTInfix(ms[y].functions))
  }

  /** Before the first radical the scan changes nothing. */
  lemma {:induction false} ScanBeforeRoot(ms: seq<Morpheme>, root: string, s: nat, e: nat, i: nat)
    requires RootLayout(ms, s, e) && i <= s
    ensures ScanTo(ms, root, i) == Init(root)
    decreases i
  {
    if i > 0 {
      ScanBeforeRoot(ms, root, s, e, i - 1);
    }
  }

  /** The surface text of the root morpheme being assembled. */
  function Assembled(st: RootScan): string {
    PlainText(Morpheme(st.text, [], st.infixes))
  }

  /** The assembled text so far is the texts of the morphemes from `s` up to `i`, joined. */
  predicate TextSoFar(ms: seq<Morpheme>, s: nat, i: nat, st: RootScan)
    requires s <= i <= |ms|
  {
    Assembled(st) == Concat(ms[s..i]) && |st.infixes| <= 1 &&
    (st.infixes != [] ==> st.infixes[0].offset <= |st.text| && st.infixes[0].morpheme.infixes == [] &&
                          st.infixes[0].morpheme.text != [])
  }

  predicate NoTSince(ms: seq<Morpheme>, s: nat, i: nat)
    requires s <= i <= |ms|
  {
    forall y :: s <= y < i ==> !IsTInfix(ms[y].functions)
  }

  predicate RadicalsKept(ms: seq<Morpheme>, s: nat, i: nat, fs: seq<Feature>)
    requires s <= i <= |ms|
  {
    forall y, f :: s <= y < i && f in ms[y].functions && f.Radical? ==> f in fs
  }

  /** The invariant of the scan between R₁ and R₃. */
  predicate InsideRoot(ms: seq<Morpheme>, s: nat, e: nat, i: nat, st: RootScan)
    requires s < i <= e + 1 <= |ms|
  {
    st.start == Some(s) && st.end == (if i == e + 1 then Some(e) else None) &&
    TextSoFar(ms, s, i, st) && (NoTSince(ms, s, i) ==> st.infixes == []) &&
    RadicalsKept(ms, s, i, st.functions)
  }

  lemma PlainTextOneInfix(t: string, fs: seq<Feature>, o: nat, inf: Morpheme)
    requires o <= |t| && inf.infixes == [] && inf.text != []
    ensures PlainText(Morpheme(t, fs, [Infix(o, inf)])) == t[..o] + inf.text + t[o..]
  {
    var m := Morpheme(t, fs, [Infix(o, inf)]);
    assert ObjectLanguage(inf) == inf.text;
    assert PlainText(m) == InsertInfixes(m, t[..o] + inf.text + t[o..], 1, false);
  }

  lemma ConcatSnoc(ms: seq<Morpheme>, s: nat, i: nat)
    requires s <= i < |ms|
    ensures Concat(ms[s..i + 1]) == Concat(ms[s..i]) + ms[i].text
  {
    assert ms[s..i + 1] == ms[s..i] + [ms[i]];
    ConcatAppend(ms[s..i], [ms[i]]);
  }

  /** Appending a collected morpheme's text appends it to the assembled text. */
  lemma TextCollect(ms: seq<Morpheme>, s: nat, i: nat, st: RootScan, r: RootScan)
    requires s <= i < |ms| && TextSoFar(ms, s, i, st)
    requires r.text == st.text + ms[i].text && r.infixes == st.infixes
    ensures TextSoFar(ms, s, i + 1, r)
  {
    ConcatSnoc(ms, s, i);
    if st.infixes == [] {
      PlainTextNoInfixes(Morpheme(st.text, [], []));
      PlainTextNoInfixes(Morpheme(r.text, [], []));
    } else {
      var inf := st.infixes[0];
      assert st.infixes == [inf];
      PlainTextOneInfix(st.text, [], inf.offset, inf.morpheme);
      PlainTextOneInfix(r.text, [], inf.offset, inf.morpheme);
      assert r.text[..inf.offset] == st.text[..inf.offset];
      assert r.text[inf.offset..] == st.text[inf.offset..] + ms[i].text;
    }
  }

  /** The t or tan morpheme, inserted at the end of the assembled text, reads as if appended. */
  lemma TextInfix(ms: seq<Morpheme>, s: nat, i: nat, st: RootScan, r: RootScan, fs: seq<Feature>)
    requires s <= i < |ms| && TextSoFar(ms, s, i, st) && st.infixes == [] && ms[i].text != []
    requires r.text == st.text && r.infixes == [Infix(|st.text|, Plain(ms[i].text, fs))]
    ensures TextSoFar(ms, s, i + 1, r)
  {
    ConcatSnoc(ms, s, i);
    PlainTextNoInfixes(Morpheme(st.text, [], []));
    PlainTextOneInfix(st.text, [], |st.text|, Plain(ms[i].text, fs));
    assert st.text[..|st.text|] == st.text && st.text[|st.text|..] == [];
  }

  lemma RadicalsStep(ms: seq<Morpheme>, s: nat, i: nat, fs: seq<Feature>, gs: seq<Feature>)
    requires s <= i < |ms| && RadicalsKept(ms, s, i, fs)
    requires |fs| <= |gs| && gs[..|fs|] == fs
    requires forall f :: f in ms[i].functions && f.Radical? ==> f in gs
    ensures RadicalsKept(ms, s, i + 1, gs)
  {
    forall f | f in fs
      ensures f in gs
    {
      var k :| 0 <= k < |fs| && fs[k] == f;
      assert gs[..|fs|][k] == f;
    }
  }

  /** What the scan between R₁ and R₃ relies on. */
  predicate InsideLayout(ms: seq<Morpheme>, s: nat, e: nat) {
    s <= e < |ms| && Radical(1) in ms[s].functions && Radical(3) in ms[e].functions &&
    (forall x :: s < x <= e ==> Radical(1) !in ms[x].functions) &&
    (forall x :: s <= x < e ==> Radical(3) !in ms[x].functions) &&
    (forall x :: s <= x <= e && IsTInfix(ms[x].functions) ==> s < x < e && ms[x].text != []) &&
    (forall x, y :: s <= x < y <= e && IsTInfix(ms[x].functions) ==> !IsTInfix(ms[y].functions))
  }

  lemma LayoutInside(ms: seq<Morpheme>, s: nat, e: nat)
    requires RootLayout(ms, s, e)
    ensures InsideLayout(ms, s, e)
  {
  }

  /** The scan state on reaching R₁, or the invariant after it. */
  predicate ScanSoFar(ms: seq<Morpheme>, s: nat, e: nat, i: nat, st: RootScan)
    requires s <= i <= e < |ms|
  {
    if i == s then st.start.None? && st.end.None? && st.text == [] && st.infixes == []
    else InsideRoot(ms, s, e, i, st)
  }

  /** One step of the scan inside the root keeps the invariant. */
  lemma ScanInsideStep(ms: seq<Morpheme>, s: nat, e: nat, i: nat, st: RootScan)
    requires InsideLayout(ms, s, e) && s <= i <= e && ScanSoFar(ms, s, e, i, st)
    ensures InsideRoot(ms, s, e, i + 1, ScanStep(ms, i, st))
  {
    if i > s && IsTInfix(ms[i].functions) {
      InfixStep(ms, s, e, i, st);
    } else {
      CollectStep(ms, s, e, i, st);
    }
  }

  /** A t or tan morpheme inside the root becomes the infix and adds only its radicals. */
  lemma InfixStep(ms: seq<Morpheme>, s: nat, e: nat, i: nat, st: RootScan)
    requires InsideLayout(ms, s, e) && s < i <= e && InsideRoot(ms, s, e, i, st) && IsTInfix(ms[i].functions)
    ensures InsideRoot(ms, s, e, i + 1, ScanStep(ms, i, st))
  {
    var r := ScanStep(ms, i, st);
    var m := ms[i];
    assert r == st.(infixes := st.infixes + [Infix(|st.text|, Plain(m.text, NonRadicals(m.functions)))],
                    functions := st.functions + Radicals(m.functions));
    assert !NoTSince(ms, s, i + 1);
    assert NoTSince(ms, s, i);
    TextInfix(ms, s, i, st, r, NonRadicals(m.functions));
    RadicalsStep(ms, s, i, st.functions, r.functions);
    assert r.end == (if i + 1 == e + 1 then Some(e) else None);
  }

  /** Any other morpheme from R₁ to R₃ has its text and its features collected. */
  lemma CollectStep(ms: seq<Morpheme>, s: nat, e: nat, i: nat, st: RootScan)
    requires InsideLayout(ms, s, e) && s <= i <= e && ScanSoFar(ms, s, e, i, st)
    requires !(i > s && IsTInfix(ms[i].functions))
    ensures InsideRoot(ms, s, e, i + 1, ScanStep(ms, i, st))
  {
    var m := ms[i];
    if i == s {
      assert ms[s..s] == [];
      PlainTextNoInfixes(Morpheme(st.text, [], []));
      assert TextSoFar(ms, s, i, st);
    }
    assert !(st.start.Some? && IsTInfix(m.functions));
    assert st.end.None?;
    var r := ScanStep(ms, i, st);
    assert r == RootScan(st.text + m.text, AppendNew(st.functions, m.functions), Some(s),
                         if i == e then Some(e) else None, st.infixes);
    TextCollect(ms, s, i, st, r);
    AppendNewMembers(st.functions, m.functions);
    forall f | f in m.functions && f.Radical?
      ensures f in r.functions
    {
      ContainsPlain(r.functions, f);
    }
    RadicalsStep(ms, s, i, st.functions, r.functions);
    assert NoTSince(ms, s, i + 1) ==> NoTSince(ms, s, i);
  }

  lemma {:induction false} ScanInsideRoot(ms: seq<Morpheme>, root: string, s: nat, e: nat, i: nat)
    requires InsideLayout(ms, s, e) && s < i <= e + 1 && ScanTo(ms, root, s) == Init(root)
    ensures InsideRoot(ms, s, e, i, ScanTo(ms, root, i))
    decreases i
  {
    var j := i - 1;
    if j > s {
      ScanInsideRoot(ms, root, s, e, j);
    }
    var st := ScanTo(ms, root, j);
    assert ScanSoFar(ms, s, e, j, st);
    ScanInsideStep(ms, s, e, j, st);
    ScanToStep(ms, root, i);
  }

  /** One more morpheme scanned. */
  lemma ScanToStep(ms: seq<Morpheme>, root: string, i: nat)
    requires 0 < i <= |ms|
    ensures ScanTo(ms, root, i) == ScanStep(ms, i - 1, ScanTo(ms, root, i - 1))
  {
  }

  /** Neither a first or third radical nor a t or tan morpheme. */
  predicate Quiet(m: Morpheme) {
    Radical(1) !in m.functions && Radical(3) !in m.functions && !IsTInfix(m.functions)
  }

  /** After the third radical the scan changes nothing. */
  lemma {:induction false} ScanAfterRoot(ms: seq<Morpheme>, root: string, e: nat, i: nat)
    requires e + 1 <= i <= |ms| && ScanTo(ms, root, e + 1).end.Some?
    requires forall x :: e < x < |ms| ==> Quiet(ms[x])
    ensures ScanTo(ms, root, i) == ScanTo(ms, root, e + 1)
    decreases i
  {
    if i > e + 1 {
      var x := i - 1;
      ScanAfterRoot(ms, root, e, x);
      assert Quiet(ms[x]);
      assert ScanTo(ms, root, i) == ScanStep(ms, x, ScanTo(ms, root, x));
    }
  }

  /**
   * On a well-formed root the pass succeeds; the morphemes before R₁ and after R₃ are kept, the
   * ones between become one morpheme glossed with the root first and one R₁, R₂ and R₃ fewer, and
   * the surface text is unchanged.
   */
  lemma MergeRootLayout(ms: seq<Morpheme>, root: string, s: nat, e: nat)
    requires RootLayout(ms, s, e)
    ensures MergeRoot(ms, root).Success?
    ensures var r := MergeRoot(ms, root).value;
            var st := ScanTo(ms, root, |ms|);
            |r| == |ms| - (e - s) && r[..s] == ms[..s] && r[s + 1..] == ms[e + 1..] &&
            r[s].functions != [] && r[s].functions[0] == Root(root) &&
            multiset(r[s].functions) + multiset{Radical(1), Radical(2), Radical(3)} == multiset(st.functions) &&
            Text(r) == Text(ms)
  {
    ScanOfLayout(ms, root, s, e);
    MergeOfScan(ms, root, s, e);
    var r := MergeRoot(ms, root).value;
    MergeShape(ms, s, e, r);
    SpliceText(ms, s, e, r[s]);
  }

  predicate ScanFoundRoot(ms: seq<Morpheme>, root: string, s: nat, e: nat) {
    0 < e < |ms| && s <= e && NoInfixes(ms) &&
    var st := ScanTo(ms, root, |ms|);
    st.start == Some(s) && st.end == Some(e) && TextSoFar(ms, s, e + 1, st) &&
    Radical(1) in st.functions && Radical(2) in st.functions && Radical(3) in st.functions
  }

  /** The pass, once the scan has found the root between `s` and `e` with its three radicals. */
  lemma MergeOfScan(ms: seq<Morpheme>, root: string, s: nat, e: nat)
    requires ScanFoundRoot(ms, root, s, e)
    ensures MergeRoot(ms, root).Success?
    ensures var r := MergeRoot(ms, root).value;
            var st := ScanTo(ms, root, |ms|);
            r == ms[..s] + [r[s]] + ms[e + 1..] &&
            r[s].functions != [] && r[s].functions[0] == Root(root) &&
            multiset(r[s].functions) + multiset{Radical(1), Radical(2), Radical(3)} == multiset(st.functions) &&
            PlainText(r[s]) == Concat(ms[s..e + 1])
  {
    var st := ScanTo(ms, root, |ms|);
    RootMorphemeRadicals(st);
    var merged := RootMorpheme(st).value;
    MergeValue(ms, root, st, s, e);
    PlainTextIgnoresFunctions(merged, Morpheme(st.text, [], st.infixes), 0);
  }

  /** With both ends found and the radicals removed, the merged morpheme replaces morphemes `s..e`. */
  lemma MergeValue(ms: seq<Morpheme>, root: string, st: RootScan, s: nat, e: nat)
    requires st == ScanTo(ms, root, |ms|) && st.start == Some(s) && st.end == Some(e)
    requires 0 < e < |ms| && s <= e && RootMorpheme(st).Success?
    ensures var r := MergeRoot(ms, root);
            r.Success? && s < |r.value| && r.value == ms[..s] + [r.value[s]] + ms[e + 1..] &&
            r.value[s] == RootMorpheme(st).value
  {
    var merged := RootMorpheme(st).value;
    var r := ms[..s] + [merged] + ms[e + 1..];
    assert MergeRoot(ms, root) == Success(r);
    assert r[s] == merged;
  }

  lemma MergeShape(ms: seq<Morpheme>, s: nat, e: nat, r: seq<Morpheme>)
    requires s <= e < |ms| && s < |r| && r == ms[..s] + [r[s]] + ms[e + 1..]
    ensures |r| == |ms| - (e - s) && r[..s] == ms[..s] && r[s + 1..] == ms[e + 1..]
  {
    assert r[s + 1..] == ms[e + 1..];
    assert r[..s] == ms[..s];
  }

  /** On a well-formed root the scan ends with both ends found, the root text and all three radicals. */
  lemma ScanOfLayout(ms: seq<Morpheme>, root: string, s: nat, e: nat)
    requires RootLayout(ms, s, e)
    ensures var st := ScanTo(ms, root, |ms|);
            st.start == Some(s) && st.end == Some(e) && TextSoFar(ms, s, e + 1, st) &&
            Radical(1) in st.functions && Radical(2) in st.functions && Radical(3) in st.functions
  {
    ScanBeforeRoot(ms, root, s, e, s);
    LayoutInside(ms, s, e);
    ScanInsideRoot(ms, root, s, e, e + 1);
    assert forall x :: e < x < |ms| ==> Quiet(ms[x]);
    ScanAfterRoot(ms, root, e, |ms|);
    var st := ScanTo(ms, root, |ms|);
    assert RadicalsKept(ms, s, e + 1, st.functions);
    var x :| s <= x <= e && Radical(2) in ms[x].functions;
    assert Radical(1) in ms[s].functions && Radical(3) in ms[e].functions;
  }

  // ---------------------------------------------------------------- no radical left over

  /**
   * No radical feature is repeated among morphemes `s..e`: each list holds it at most once and no
   * two morphemes both hold it, as in the forms `finite_form` builds.
   */
  ghost predicate EachRadicalOnce(ms: seq<Morpheme>, s: nat, e: nat)
    requires s <= e < |ms|
  {
    (forall x, f: Feature :: s <= x <= e && f.Radical? ==> multiset(ms[x].functions)[f] <= 1) &&
    (forall x, y, f: Feature :: s <= x < y <= e && f.Radical? && f in ms[x].functions ==> f !in ms[y].functions)
  }

  /** The radicals collected from morphemes `s..i`: none twice, and each from one of them. */
  ghost predicate RadicalsOnce(ms: seq<Morpheme>, s: nat, i: nat, fs: seq<Feature>)
    requires s <= i <= |ms|
  {
    (forall f: Feature :: f.Radical? ==> multiset(fs)[f] <= 1) &&
    (forall f: Feature :: f.Radical? && f in fs ==> exists y :: s <= y < i && f in ms[y].functions)
  }

  lemma {:induction false} RadicalsCount(fs: seq<Feature>, f: Feature)
    requires f.Radical?
    ensures multiset(Radicals(fs))[f] == multiset(fs)[f]
  {
    if fs != [] {
      RadicalsCount(fs[1..], f);
      assert fs == [fs[0]] + fs[1..];
    }
  }

  /**
   * On a well-formed root whose radicals are not repeated, the root morpheme keeps no radical
   * feature (grammar.py:503-523): the scan collects each radical once, and the three `remove`
   * calls take them all.
   */
  lemma MergeRootClearsRadicals(ms: seq<Morpheme>, root: string, s: nat, e: nat)
    requires RootLayout(ms, s, e) && EachRadicalOnce(ms, s, e)
    ensures MergeRoot(ms, root).Success? && s < |MergeRoot(ms, root).value|
    ensures forall f :: f in MergeRoot(ms, root).value[s].functions ==> !f.Radical?
  {
    MergeRootLayout(ms, root, s, e);
    var r := MergeRoot(ms, root).value;
    var fs := ScanTo(ms, root, |ms|).functions;
    ScanRadicalsComplete(ms, root, s, e);
    assert multiset(r[s].functions) + multiset{Radical(1), Radical(2), Radical(3)} == multiset(fs);
    NoRadicalLeft(r[s].functions, fs);
  }

  /** Taking one of each radical from a list holding each at most once leaves none. */
  lemma NoRadicalLeft(gs: seq<Feature>, fs: seq<Feature>)
    requires multiset(gs) + multiset{Radical(1), Radical(2), Radical(3)} == multiset(fs)
    requires forall f: Feature :: f.Radical? ==> multiset(fs)[f] <= 1
    ensures forall f :: f in gs ==> !f.Radical?
  {
    var three := multiset{Radical(1), Radical(2), Radical(3)};
    forall f: Feature | f.Radical?
      ensures three[f] == 1
    {
      assert f == Radical(f.position);
    }
    forall f: Feature | f in gs
      ensures !f.Radical?
    {
      assert multiset(gs)[f] + three[f] == multiset(fs)[f];
    }
  }

  /** The finished scan holds each radical at most once. */
  lemma ScanRadicalsComplete(ms: seq<Morpheme>, root: string, s: nat, e: nat)
    requires RootLayout(ms, s, e) && EachRadicalOnce(ms, s, e)
    ensures forall f: Feature :: f.Radical? ==> multiset(ScanTo(ms, root, |ms|).functions)[f] <= 1
  {
    ScanBeforeRoot(ms, root, s, e, s);
    LayoutInside(ms, s, e);
    ScanInsideRoot(ms, root, s, e, e + 1);
    assert forall x :: e < x < |ms| ==> Quiet(ms[x]);
    ScanAfterRoot(ms, root, e, |ms|);
    ScanRadicalsOnce(ms, root, s, e, e + 1);
  }

  /** Between R₁ and R₃ the scan has found the start and not yet the end. */
  lemma ScanInsideState(ms: seq<Morpheme>, root: string, s: nat, e: nat, j: nat)
    requires RootLayout(ms, s, e) && s <= j <= e
    ensures var st := ScanTo(ms, root, j);
            if j == s then st == Init(root) else st.start.Some? && st.end.None?
  {
    ScanBeforeRoot(ms, root, s, e, s);
    if j > s {
      LayoutInside(ms, s, e);
      ScanInsideRoot(ms, root, s, e, j);
    }
  }

  lemma {:induction false} ScanRadicalsOnce(ms: seq<Morpheme>, root: string, s: nat, e: nat, i: nat)
    requires RootLayout(ms, s, e) && EachRadicalOnce(ms, s, e) && s <= i <= e + 1
    ensures RadicalsOnce(ms, s, i, ScanTo(ms, root, i).functions)
    decreases i
  {
    if i == s {
      ScanBeforeRoot(ms, root, s, e, s);
      assert ScanTo(ms, root, i).functions == [Root(root)];
    } else {
      var j := i - 1;
      ScanRadicalsOnce(ms, root, s, e, j);
      var st := ScanTo(ms, root, j);
      ScanInsideState(ms, root, s, e, j);
      ScanToStep(ms, root, i);
      if j > s && IsTInfix(ms[j].functions) {
        assert ScanStep(ms, j, st).functions == st.functions + Radicals(ms[j].functions);
        InfixRadicalsOnce(ms, s, e, j, st.functions);
      } else {
        assert Radical(1) in ms[s].functions;
        assert j > s ==> !IsTInfix(ms[j].functions);
        CollectRadicalsOnce(ms, s, e, j, st);
      }
    }
  }

  /** A collected morpheme adds only the radicals the list lacks. */
  lemma CollectRadicalsOnce(ms: seq<Morpheme>, s: nat, e: nat, j: nat, st: RootScan)
    requires s <= j <= e < |ms| && RadicalsOnce(ms, s, j, st.functions)
    requires (j == s && st.start.None? && st.end.None? && Radical(1) in ms[j].functions) ||
             (st.start.Some? && st.end.None? && !IsTInfix(ms[j].functions))
    ensures RadicalsOnce(ms, s, j + 1, ScanStep(ms, j, st).functions)
  {
    var m := ms[j];
    var gs := ScanStep(ms, j, st).functions;
    assert gs == AppendNew(st.functions, m.functions);
    AppendNewMembers(st.functions, m.functions);
    forall f: Feature | f.Radical?
      ensures multiset(gs)[f] <= 1
    {
      AppendNewCount(st.functions, m.functions, f);
    }
    forall f: Feature | f.Radical? && f in gs
      ensures exists y :: s <= y < j + 1 && f in ms[y].functions
    {
      if f !in st.functions {
        assert f in ms[j].functions;
      }
    }
  }

  /** The t or tan morpheme adds its radicals as they are, which the layout has not seen yet. */
  lemma InfixRadicalsOnce(ms: seq<Morpheme>, s: nat, e: nat, j: nat, fs: seq<Feature>)
    requires s <= j <= e < |ms| && EachRadicalOnce(ms, s, e) && RadicalsOnce(ms, s, j, fs)
    ensures RadicalsOnce(ms, s, j + 1, fs + Radicals(ms[j].functions))
  {
    var m := ms[j];
    var gs := fs + Radicals(m.functions);
    forall f: Feature | f.Radical?
      ensures multiset(gs)[f] <= 1
    {
      RadicalsCount(m.functions, f);
    }
    forall f: Feature | f.Radical? && f in gs
      ensures exists y :: s <= y < j + 1 && f in ms[y].functions
    {
      if f !in fs {
        assert f in ms[j].functions;
      }
    }
  }

  /** Replacing morphemes `s..e` by one whose plain text is theirs, joined, keeps the word's text. */
  lemma SpliceText(ms: seq<Morpheme>, s: nat, e: nat, merged: Morpheme)
    requires s <= e < |ms| && NoInfixes(ms) && PlainText(merged) == Concat(ms[s..e + 1])
    ensures Text(ms[..s] + [merged] + ms[e + 1..]) == Text(ms)
  {
    NoInfixesSlice(ms, 0, s);
    NoInfixesSlice(ms, e + 1, |ms|);
    TextAround(ms[..s], merged, ms[e + 1..]);
    ConcatThree(ms, s, e);
    TextIsConcat(ms);
  }

  lemma TextAround(before: seq<Morpheme>, merged: Morpheme, after: seq<Morpheme>)
    requires NoInfixes(before) && NoInfixes(after)
    ensures Text(before + [merged] + after) == Concat(before) + PlainText(merged) + Concat(after)
  {
    TextIsConcat(before);
    TextIsConcat(after);
    assert Text([merged]) == PlainText(merged) by {
      assert [merged][1..] == [];
    }
    TextAppend(before + [merged], after);
    TextAppend(before, [merged]);
  }

  lemma ConcatThree(ms: seq<Morpheme>, s: nat, e: nat)
    requires s <= e < |ms|
    ensures Concat(ms) == Concat(ms[..s]) + Concat(ms[s..e + 1]) + Concat(ms[e + 1..])
  {
    var upTo := ms[..e + 1];
    ConcatAt(ms, e + 1);
    ConcatAt(upTo, s);
    assert upTo[..s] == ms[..s] && upTo[s..] == ms[s..e + 1];
  }

  /** The plain text of a morpheme does not depend on its features. */
  lemma {:induction false} PlainTextIgnoresFunctions(a: Morpheme, b: Morpheme, k: nat)
    requires a.text == b.text && a.infixes == b.infixes
    ensures forall t :: InsertInfixes(a, t, k, false) == InsertInfixes(b, t, k, false)
    ensures k == 0 ==> PlainText(a) == PlainText(b)
    decreases |a.infixes| - k
  {
    if k < |a.infixes| {
      PlainTextIgnoresFunctions(a, b, k + 1);
    }
    if k == 0 {
      assert PlainText(a) == InsertInfixes(a, a.text, 0, false);
      assert InsertInfixes(a, a.text, 0, false) == InsertInfixes(b, a.text, 0, false);
      assert PlainText(b) == InsertInfixes(b, b.text, 0, false);
    }
  }

  lemma NoInfixesSlice(ms: seq<Morpheme>, a: nat, b: nat)
    requires NoInfixes(ms) && a <= b <= |ms|
    ensures NoInfixes(ms[a..b])
  {
  }
}
