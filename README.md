# Akkadian finite verb forms and their index

This project models the verb generator of the glossator repository and proves properties of the
model. The generator has two parts:

- `grammar.py` builds a finite Akkadian verb form from a root, its two theme vowels and a bundle
  of grammatical features. Person, gender and number come first. Then come aspect, the `t`/`tan`
  infix, subjunctive, connective `-ma`, ventive, stem (G, D, Š, N), and accusative and dative
  object suffixes.
  - `Verb.finite_form` lays out the underlying morphemes in their fixed order.
  - `KamilDecomposition` then rewrites them in place with twelve passes: overlong clusters,
    a-colouring, loss of weak consonants, vowel contraction, lengthening before suffixes, four
    assimilations, syncope, assimilation of `n`, and the merge of the root morphemes.
- `lexicon.py` generates every durative, perfective and perfective-with-`t` form of a fixed list
  of 27 verbs, for every object agreement.
  - Each form is filed under its surface text and its gloss.
  - Each surface text is then filed under its spelling without vowel length.

The modules follow the source:

- `Alphabet` holds the letter classes and the string helpers of grammar.py:6-23 and 203-209.
- `Morphemes` holds the features, morphemes and overt-morpheme searches.
- `Affixes` holds the affix tables of grammar.py:152-201.
- One module per pass: `Overlong`, `Colouring`, `WeakConsonants`, `Contraction`, `Lengthening`,
  `Assimilation`, `Syncope` and `RootMerge`.
  - Each pass is a function over the morpheme list, with lemmas about what it does.
- `Cascade` holds the twelve passes in their order.
- `Kamil` holds the class `KamilDecomposition`.
  - Its methods loop over the `morphemes` field as the source does.
  - Each method is proved to compute its pass function.
- `Verbs` holds `finite_form` and lemmas on where each feature lands.
- `Paradigm` follows whole G durative 3rd singular forms through `finite_form` and the
  cascade: every root of three strong consonants, every root whose third radical is ʾ, and the
  lexicon's `prs` and `bnʾ` as instances (`iparras`, `ibanni`).
  - The vowel after R₁ in the durative is always `a`, as grammar.py:588-589 appends it.
- `Lexicon` holds the form index.
  - The class `Index` has the three tables as fields and one method per loop of `add_forms`.
  - Each method is proved to file exactly the calls a specification function enumerates.
  - Lemmas state which calls those are.

Python exceptions become `Result` failures: the `ValueError`s of `lose_consonants` and
`merge_root_morphemes`, and the `IndexError` of grammar.py:367. `None` becomes `Option`.

## Model

| member | source | states |
|---|---|---|
| Alphabet.ShortenVowels | grammar.py:18-19 | the result is no longer than the input and has no macron or circumflex letter left |
| Alphabet.ShortenVowelsAppend | grammar.py:18-19 | folding vowel length distributes over concatenation |
| Alphabet.ShortenVowelsUnmarked | grammar.py:18-19 | a text with no length-marked letter is its own folding |
| Alphabet.ShortenVowelsIdempotent | grammar.py:18-19 | folding twice is folding once |
| Alphabet.ShortenVowelsLengthen | grammar.py:18-19 | folding undoes the lengthening `nfc(s + MACRON)` |
| Alphabet.Lengthen | grammar.py:349 | a final short vowel becomes its long vowel with the rest kept; a text ending in anything but a short vowel, `g` or `y` gets the combining macron appended |
| Alphabet.ColourA | grammar.py:310 | the same length, each letter mapped on its own by the a-to-e colouring |
| Alphabet.ColourAMeaning | grammar.py:310 | after colouring no letter has base `a`, and every letter without base `a` is unchanged |
| Alphabet.ColourAIdempotent | grammar.py:310 | colouring twice is colouring once |
| Alphabet.Base | grammar.py:204 | the first character of a vowel's NFD is a short vowel |
| Alphabet.CircumflexOf | grammar.py:209 | the circumflexed vowel is one of â ê î û and has the given base |
| Alphabet.ContractVowels | grammar.py:203-209 | the pair is kept exactly when a front vowel meets `a`; `ā`/`ē` before `i` give `ê`; otherwise the contraction is the circumflexed base of the second vowel |
| Alphabet.CollapsePairs | grammar.py:22 | `replace(2 * c, c)` never lengthens the text |
| Alphabet.CollapsePairsKeepsNonConsonants | grammar.py:22 | collapsing a consonant pair deletes consonants only |
| Alphabet.CollapsePairsUngeminate | grammar.py:22 | a text without doubled consonants is a fixed point |
| Alphabet.UngeminateConsonants | grammar.py:20-23 | the loop over CONSONANTS computes the rounds in order; it deletes consonants only, and leaves a text without geminates unchanged |
| Morphemes.ContainsPlain | grammar.py:70-71 | for a feature that is not an object, the source's `in` is plain membership |
| Morphemes.AppendNew | grammar.py:481-484 | appending missing features keeps the original list as a prefix |
| Morphemes.AppendNewMembers | grammar.py:481-484 | every appended feature is then contained, and nothing from elsewhere enters |
| Morphemes.AppendNewDistinct | grammar.py:481-484 | appending only what is missing adds no duplicates |
| Morphemes.AppendNewConcat | grammar.py:481-484 | the nested loops over several lists are one loop over their concatenation |
| Morphemes.AppendNewCount | grammar.py:481-484 | a feature other than an object is appended once when the list lacks it, and not at all when the list has it |
| Morphemes.PlainTextNoInfixes | grammar.py:128-132 | without infixes the plain text is the text |
| Morphemes.TextAppend | grammar.py:261-262 | the surface text of a concatenation is the concatenation of the surface texts |
| Morphemes.TextIsConcat | grammar.py:261-262 | without infixes the surface text is the morpheme texts joined |
| Morphemes.FunctionsOf | grammar.py:222 | every feature of every morpheme is in the feature set |
| Morphemes.SetText | grammar.py:292 | assigning one morpheme's text changes that text and nothing else |
| Morphemes.NextOvert | grammar.py:264-272 | the index is the first later morpheme with a text, with that text; every morpheme skipped is silent; past the end the text is empty and the index is the length |
| Morphemes.PrevOvert | grammar.py:274-282 | the index is the last earlier morpheme with a text, or -1, with that text; every morpheme skipped is silent |
| Morphemes.NextOvertShape | grammar.py:264-272 | the search reads the texts only |
| Affixes.PersonalPrefix | grammar.py:152-155 | the prefix ends in a short vowel, is glossed first by the person, and is `ta` exactly for the second person |
| Affixes.PersonalPrefixD | grammar.py:157-161 | the prefix ends in `u`, is `tu` exactly for the second person, and glosses the singular first and third persons as `Person(1, 3)` |
| Affixes.PersonalSuffix | grammar.py:163-171 | the suffix is one of ī ā ū, and it is overt exactly for the second feminine, the second plural and the third plural |
| Affixes.PersonalAffixesDistinguish | grammar.py:152-171 | prefix and suffix together fix person and number, and fix gender wherever the suffix marks it |
| Affixes.VentiveSuffix | grammar.py:173-177 | the ventive ends in `m`; it is `nim` exactly for a plural other than the first, and `m` exactly for the second feminine singular |
| Affixes.VentiveSuffixAsWritten | grammar.py:173-177 | as written, every plural takes `nim` |
| Affixes.VentiveFirstPluralDiffers | grammar.py:174 | the first plural ventive is `nim` as written and `am` as intended |
| Affixes.AccusativeSuffix | grammar.py:179-189 | the suffix ends in a vowel, carries the accusative object tag, and starts with `n`, `k` or `š` exactly for the first, second or third person |
| Affixes.DativeSuffix | grammar.py:191-201 | there is no suffix exactly for the first singular; otherwise it ends in `m`, carries the dative tag, and starts with `š` exactly for the third person |
| Overlong.Lookahead | grammar.py:287-289 | the lookahead is non-empty exactly when there is a next overt morpheme, and then starts with that morpheme's first letter |
| Overlong.OverlongStep | grammar.py:285-295 | a morpheme other than `tan` changes nothing; only morpheme `i` and the next overt morpheme can change; `i` changes exactly when it is `tan` before a strong consonant and a consonant; the next overt morpheme changes exactly when `i` is `tan` before a weak consonant and a consonant (and not a strong one); each change is `tan` to `ta` or the dropping of a text starting with a weak consonant |
| Overlong.OverlongFrom | grammar.py:284-295 | the loop keeps features and infixes and changes each text by at most those two edits |
| Overlong.OverlongKeepsEarlier | grammar.py:285-295 | the loop from `i` on leaves the earlier morphemes alone |
| Overlong.OverlongUpToFirstTan | grammar.py:286 | the turns before the first `tan` change nothing |
| Overlong.FirstTanShortened | grammar.py:290-292 | the first `tan` of a word before a strong consonant cluster ends up as `ta` |
| Overlong.FirstTanDropsWeak | grammar.py:293-295 | before a cluster starting with a weak consonant the first `tan` stays and the next overt morpheme ends up empty |
| Overlong.OverlongWithoutTan | grammar.py:286 | without a `tan` morpheme the pass is the identity |
| Overlong.OverlongShortens | grammar.py:284-295 | the pass never lengthens the joined text |
| Colouring.ColourAll | grammar.py:303-310 | every morpheme is mapped on its own by the colouring |
| Colouring.ColourKeepsTrigger | grammar.py:299-309 | colouring preserves whether a morpheme triggers the colouring and whether it is excluded |
| Colouring.ColourMorphemeIdempotent | grammar.py:310 | colouring a morpheme twice is colouring it once |
| Colouring.ColourAllIdempotent | grammar.py:303-310 | colouring every morpheme twice is doing it once, and keeps whether a trigger is present |
| Colouring.ColourFromMeaning | grammar.py:298-310 | the loop from `i` colours every morpheme if a trigger stands at `i` or later, and otherwise changes nothing |
| Colouring.ColourLoopIsGlobal | grammar.py:297-310 | the in-loop colouring equals colouring the whole word once when any morpheme triggers it |
| Colouring.ColouringWithoutTrigger | grammar.py:299-302 | without ʿ, ḥ or a `y` first radical the pass changes nothing |
| Colouring.ColouringEffect | grammar.py:303-310 | with a trigger, no letter with base `a` remains outside the excluded morphemes; excluded morphemes are unchanged; lengths and features are kept |
| Colouring.ColouringIdempotent | grammar.py:297-310 | the pass is idempotent |
| WeakConsonants.BlankRange | grammar.py:375-377 | exactly the morphemes from `i` up to `l` become silent |
| WeakConsonants.DoubledWeakRewrite | grammar.py:328-361 | the rewrite of a geminated weak consonant touches only the morpheme and its previous, next and second next overt morphemes; before a vowel it is `DoubledBeforeVowel`; otherwise in the D-stem `V₁ʾʾV₂C > V̄₂C` (the previous text loses its vowel, the consonant goes, the next text is lengthened), outside it `aww > ū` and `ayy > ī` (the previous text loses its `a`), and any other doubled consonant is just dropped |
| WeakConsonants.DoubledBeforeVowel | grammar.py:328-342 | `V₁ʾʾV₂CV₃ > V₂CCV₃`: only the four morphemes change; the doubled consonant is emptied, the previous text loses its last letter and the second next text is doubled; the next text becomes `u` for `aww` and `i` for `ayy` outside the D-stem and is kept otherwise |
| WeakConsonants.WeakAfterConsonant | grammar.py:364-367 | after a consonant the weak consonant is dropped and the next overt text lengthened, nothing else changes, and the step fails exactly when no overt morpheme follows to lengthen |
| WeakConsonants.WeakSecondTest | grammar.py:369-403 | the second test on a single weak consonant touches only the morphemes from the previous to the second next overt one |
| WeakConsonants.ContractAroundWeak | grammar.py:378-384 | `awa > ū`, `aya > ī`, `aʾa > ā`: only the three morphemes change; the previous text loses its last letter, the next its first, and the weak consonant becomes ū, ī or ā |
| WeakConsonants.LengthenForWeak | grammar.py:395-400 | `VʾC > V̄C`: the weak consonant is emptied; a previous text ending in a short vowel gets it lengthened to ā ē ī ū, any other is kept; nothing else changes |
| WeakConsonants.LoseStep | grammar.py:313-403 | a morpheme that is not a weak consonant changes nothing, and a success changes texts only |
| WeakConsonants.LoseFrom | grammar.py:313-403 | the loop changes texts only |
| WeakConsonants.LoseStepFailure | grammar.py:318-367 | the step fails exactly on a geminated weak consonant outside `V₁ʾʾV₂C`, or on a single one after a consonant with nothing after it |
| WeakConsonants.DoubledWeakErrors | grammar.py:322-327 | the three `ValueError`s are raised in the order the source tests them, each naming the offending text |
| WeakConsonants.LoseStepLocal | grammar.py:313-403 | a successful step changes no morpheme before the previous or after the second next overt one |
| WeakConsonants.LoseConsonantsKeepsMorphemes | grammar.py:312-403 | the pass keeps the number of morphemes and every morpheme's features |
| WeakConsonants.LoseWithoutWeak | grammar.py:313-403 | a word with no weak consonant morpheme goes through the pass unchanged and without error |
| Contraction.Merged | grammar.py:479-484 | the merged text is the first text without its last vowel, the contraction and the next text without its first vowel; its features start with the first morpheme's, take in every popped feature, and stay free of duplicates |
| Contraction.Merge | grammar.py:479-487 | the morphemes between `i` and `k` are popped and the merged morpheme replaces `i`; nothing else changes |
| Contraction.ContractFrom | grammar.py:472-488 | the loop never lengthens the list and leaves the morphemes before `i` unchanged |
| Contraction.MergeText | grammar.py:475-480 | the two meeting vowels of the joined text are replaced by their contraction, and nothing else in the joined text changes |
| Contraction.MergeShrinks | grammar.py:485-487 | a contraction removes exactly the morphemes up to the next overt one |
| Contraction.ContractWithoutMeeting | grammar.py:472-488 | where no two contracting vowels meet, the pass changes nothing |
| Lengthening.LengthenStep | grammar.py:491-495 | only the previous overt morpheme can change, keeping its length and its folded spelling, and only after a `-ma` or object suffix and a short vowel |
| Lengthening.LengthenFrom | grammar.py:490-495 | the pass keeps every text's length and folded spelling |
| Lengthening.LengthenStepEffect | grammar.py:492-495 | before `-ma` or an object suffix, the short final vowel of the previous overt morpheme becomes long |
| Lengthening.LengthenWithoutSuffixes | grammar.py:490-495 | without `-ma` or an object suffix the pass changes nothing |
| Assimilation.ReplaceLast | grammar.py:416 | the last letter is replaced by the given one |
| Assimilation.AssimilateTStep | grammar.py:427-434 | only morpheme `i` changes, and only when it is a t-infix starting with `t` after d ṭ s ṣ; its `t` then becomes that letter |
| Assimilation.AssimilationOfT | grammar.py:430-434 | a t-infix starting with `t` after d ṭ s ṣ does take that letter and keeps the rest of its text |
| Assimilation.AssimilateTFrom | grammar.py:426-434 | the loop keeps the morphemes' features and infixes and changes only t-infixes |
| Assimilation.AssimilateTKeepsEarlier | grammar.py:427-434 | the loop from `i` on leaves every earlier morpheme as it was |
| Assimilation.AssimilateTSequential | grammar.py:427-434 | every morpheme from `i` on is the rule applied to its original text and the previous overt text as the loop leaves it, so a letter changed earlier in the pass is seen |
| Assimilation.AssimilateTFirstEdit | grammar.py:434 | the pass changes at most the first letter of a text, to d, ṭ, s or ṣ |
| Assimilation.AssimilateTWithoutInfix | grammar.py:426-434 | without a t-infix the pass changes nothing |
| Assimilation.AssimilateObjectStep | grammar.py:437-444 | only the morpheme and its previous overt morpheme change, each at most in its first and last letter; a change happens only to an object suffix starting with `š` after a dental or sibilant, which then starts with `s`, and the previous overt text then ends in `s` |
| Assimilation.AssimilationOfObjectSh | grammar.py:439-444 | an object suffix `š…` after a dental or sibilant does become `s…`, and the previous overt text does end in `s` instead of its last letter |
| Assimilation.ObjectStepClears | grammar.py:438-444 | one turn leaves no object `š` after a dental or sibilant at morpheme `i` and creates none before it |
| Assimilation.AssimilateObjectFrom | grammar.py:436-444 | the loop changes at most the first and last letters of each text, to `s`; if no object `š` follows a dental or sibilant before `i`, none does anywhere afterwards |
| Assimilation.ObjectShCleared | grammar.py:436-444 | after the pass no object suffix starts with `š` right after a dental or sibilant |
| Assimilation.AssimilateObjectWithoutObject | grammar.py:436-444 | without an object suffix the pass changes nothing |
| Assimilation.AssimilateBStep | grammar.py:420-424 | only morpheme `i` changes, and only when it ends in `b` before an overt text starting with `m`; its `b` then becomes `m` |
| Assimilation.AssimilationOfB | grammar.py:421-424 | a `b` before `m` does become `m` |
| Assimilation.AssimilateBFrom | grammar.py:418-424 | the loop keeps the morphemes' features and infixes and changes at most the last letter of each text, to `m` |
| Assimilation.AssimilateBSimultaneous | grammar.py:419-424 | the loop from `i` on leaves earlier morphemes alone and rewrites every later one exactly as one step does in the word it started from |
| Assimilation.AssimilateBWithoutB | grammar.py:418-424 | where no `b` stands before an overt `m` the pass changes nothing |
| Assimilation.AssimilateMStep | grammar.py:447-454 | only a ventive or dative morpheme ending in `m` before a consonant changes; its `m` becomes that consonant |
| Assimilation.AssimilationOfM | grammar.py:449-454 | a ventive or dative `m` before a consonant does become that consonant |
| Assimilation.AssimilateMFrom | grammar.py:446-454 | the loop keeps the morphemes' features and infixes and changes at most the last letter of each text, to a consonant |
| Assimilation.AssimilateMSimultaneous | grammar.py:447-454 | the loop from `i` on leaves earlier morphemes alone and rewrites every later one exactly as one step does in the word it started from |
| Assimilation.AssimilateMWithoutM | grammar.py:446-454 | where no ventive or dative `m` stands before a consonant the pass changes nothing |
| Assimilation.AssimilateNStep | grammar.py:406-416 | only a morpheme ending in `n` before a consonant changes; its `n` becomes that consonant |
| Assimilation.AssimilateNFrom | grammar.py:405-416 | the loop keeps the morphemes' features and infixes and changes at most the last letter of each text, to a consonant |
| Assimilation.AssimilateNSimultaneous | grammar.py:406-416 | the loop from `i` on leaves earlier morphemes alone and rewrites every later one exactly as one step does in the word it started from |
| Assimilation.NoAssimilationOfFirstRadicalN | grammar.py:411-415 | in the Ntn stem and the N perfect, a first radical `n` stays before R₂ |
| Assimilation.AssimilationOfN | grammar.py:408-416 | every other `n` before a consonant assimilates to it |
| Assimilation.AssimilateNWithoutN | grammar.py:405-416 | where no `n` stands before a consonant the pass changes nothing |
| Syncope.PairRunIsMaximal | grammar.py:457 | the run counted from `p` is made of short-vowel-consonant pairs, and no pair follows it |
| Syncope.PatternAtRun | grammar.py:457 | the regex matches at `p` with `m` pairs before the captured vowel exactly when the pair run from `p` is long enough |
| Syncope.MatchAtIsGreedy | grammar.py:457-458 | no match at `p` exactly when no pair count fits; a match captures the vowel after the greedy number of pairs |
| Syncope.MatchIsShortVowel | grammar.py:457-460 | the captured position holds a short vowel |
| Syncope.SearchIsLeftmost | grammar.py:458 | `re.search` finds the leftmost start position with a match |
| Syncope.SearchIsShortVowel | grammar.py:458-460 | the syncopated position holds a short vowel of the word |
| Syncope.DeleteFrom | grammar.py:461-469 | the walk keeps every morpheme shape, changes nothing before morpheme `x`, and never touches an object suffix |
| Syncope.SyncopateDeletesFound | grammar.py:456-469 | when `re.search` finds the vowel at position `g` of a word without infixes, and `g` falls in morpheme `x`: if `x` is an object suffix the word is unchanged; otherwise exactly that letter is deleted from morpheme `x`, every other morpheme is kept, and the joined text loses exactly the character at `g` |
| Syncope.SyncopateEffect | grammar.py:456-469 | the pass keeps every morpheme's shape and never changes an object suffix; when the pattern matches nowhere the word is unchanged, and otherwise the joined text is either unchanged or loses the short vowel the search found (`SyncopateDeletesFound` says which) |
| RootMerge.Radicals | grammar.py:508-509 | the radical features of a list, and nothing else |
| RootMerge.NonRadicals | grammar.py:508 | the non-radical features of a list, and nothing else |
| RootMerge.ScanStep | grammar.py:503-517 | the collected features only grow, and a found root start or end stays found |
| RootMerge.ScanTo | grammar.py:498-517 | the positions found lie before `i`, and the feature list still starts with the root |
| RootMerge.RemoveFirst | grammar.py:520-522 | `list.remove` fails exactly when the feature is absent, removes one occurrence, and keeps a different first element first |
| RootMerge.RootMorpheme | grammar.py:520-523 | the merged morpheme has the collected text and infixes and keeps the root as first feature; a failure names a missing radical |
| RootMerge.RootMorphemeRadicals | grammar.py:520-522 | on success exactly one R₁, R₂ and R₃ are removed; each failure names the first radical that is missing |
| RootMerge.MergeRoot | grammar.py:497-523 | a failure is the missing third radical or a missing radical feature |
| RootMerge.MergeScanned | grammar.py:518-523 | once the scan is done, a failure is the missing third radical or a missing radical feature |
| RootMerge.EndOnlyAtThirdRadical | grammar.py:516-517 | the root end recorded is always a morpheme tagged R₃ |
| RootMerge.NoThirdRadicalFails | grammar.py:518-519 | without an R₃ after the first morpheme the merge raises; an R₃ at index 0 counts as none, since `not root_end` holds for 0 |
| RootMerge.MergeRootLayout | grammar.py:497-523 | for a root from R₁ to R₃ with infixes in between, the merge succeeds, replaces that span by one morpheme glossed by the root first with one R₁, one R₂ and one R₃ removed from the collected features, and keeps the surface text |
| RootMerge.MergeRootClearsRadicals | grammar.py:503-523 | for such a root where no radical feature is repeated among the morphemes from R₁ to R₃, the merged morpheme keeps no radical feature at all; the hypothesis is needed because the t-infix branch (line 509) adds its radicals without the deduplication of line 515 |
| RootMerge.MergeOfScan | grammar.py:497-523 | the span the scan found is replaced by one morpheme whose plain text is the span's joined texts |
| Cascade.Copies | grammar.py:220-221 | the copies keep texts and features and drop the infixes |
| Cascade.BeforeContractionShape | grammar.py:223-225 | the first three passes keep one morpheme per input morpheme, with its features |
| Cascade.ColouringShape | grammar.py:224 | the colouring changes texts only |
| Kamil.KamilDecomposition.constructor | grammar.py:219-222 | the copies and the feature set, before any pass runs |
| Kamil.KamilDecomposition.NextOvertMorpheme | grammar.py:264-272 | the loop computes `NextOvert` |
| Kamil.KamilDecomposition.PreviousOvertMorpheme | grammar.py:274-282 | the loop computes `PrevOvert` |
| Kamil.KamilDecomposition.AvoidOverlongConsonantClusters | grammar.py:284-295 | the list after the loop is the overlong pass of the list before |
| Kamil.KamilDecomposition.ApplyGlobalAColouring | grammar.py:297-310 | the list after the loop is the colouring pass of the list before |
| Kamil.KamilDecomposition.ColourEveryMorpheme | grammar.py:303-310 | the inner loop colours every morpheme |
| Kamil.KamilDecomposition.LoseConsonants | grammar.py:312-403 | the loop fails exactly when the pass does, with the same error, and otherwise leaves the pass's result |
| Kamil.KamilDecomposition.ContractVowels | grammar.py:471-488 | the while loop computes the contraction pass |
| Kamil.KamilDecomposition.MergeMorphemes | grammar.py:479-487 | the in-place merge and pops give `Contraction.Merge` |
| Kamil.KamilDecomposition.PopAfter | grammar.py:485-487 | popping from `k` down to `i + 1` removes exactly those morphemes |
| Kamil.KamilDecomposition.LengthenBeforeSuffixes | grammar.py:490-495 | the loop computes the lengthening pass |
| Kamil.KamilDecomposition.LengthenBefore | grammar.py:491-495 | one turn is `Lengthening.LengthenStep` |
| Kamil.KamilDecomposition.AssimilateT | grammar.py:426-434 | the loop computes the t assimilation pass |
| Kamil.KamilDecomposition.AssimilateTAt | grammar.py:428-434 | one turn is `Assimilation.AssimilateTStep` |
| Kamil.KamilDecomposition.AssimilateObjectSh | grammar.py:436-444 | the loop computes the object-š assimilation pass |
| Kamil.KamilDecomposition.AssimilateObjectShAt | grammar.py:438-444 | one turn is `Assimilation.AssimilateObjectStep` |
| Kamil.KamilDecomposition.AssimilateB | grammar.py:418-424 | the loop computes the b assimilation pass |
| Kamil.KamilDecomposition.AssimilateVentiveDativeM | grammar.py:446-454 | the loop computes the ventive and dative m assimilation pass |
| Kamil.KamilDecomposition.AssimilateMAt | grammar.py:448-454 | one turn is `Assimilation.AssimilateMStep` |
| Kamil.KamilDecomposition.AssimilateN | grammar.py:405-416 | the loop computes the n assimilation pass over the feature set of line 222 |
| Kamil.KamilDecomposition.AssimilateNAt | grammar.py:407-416 | one turn is `Assimilation.AssimilateNStep` |
| Kamil.KamilDecomposition.SyncopateVowels | grammar.py:456-469 | the search and the walk over the letters compute the syncope pass |
| Kamil.KamilDecomposition.SyncopateIn | grammar.py:463-469 | the walk over one morpheme either deletes the letter there or advances the letter count past it |
| Kamil.KamilDecomposition.MergeRootMorphemes | grammar.py:497-523 | the method fails exactly when the merge function does, with its error, and otherwise leaves its result |
| Kamil.KamilDecomposition.ScanRoot | grammar.py:503-517 | the loop computes the scan of all morphemes |
| Kamil.KamilDecomposition.ScanMorpheme | grammar.py:504-517 | one turn is `RootMerge.ScanStep` |
| Kamil.KamilDecomposition.Rewrite | grammar.py:223-235 | the twelve passes in order fail exactly when `Cascade.Passes` does, and otherwise leave its result and the recomputed feature set |
| Kamil.KamilDecomposition.PassesAfterLoss | grammar.py:226-233 | the passes from the vowel contraction to the n assimilation, in order |
| Kamil.Decompose | grammar.py:218-235 | constructing and rewriting gives `Cascade.Decomposed` |
| Verbs.FiniteForm | grammar.py:533-628 | appending the morphemes one by one and decomposing them gives the decomposition of the underlying list |
| Verbs.AppendBefore | grammar.py:552-566 | the morphemes before R₁ |
| Verbs.AppendStem | grammar.py:568-613 | R₁, the t morpheme after it, the aspect vowel, R₂, the stem vowel and R₃, in that order |
| Verbs.AppendSuffixes | grammar.py:614-627 | the suffixes after R₃ in their order |
| Verbs.DurativeForm | grammar.py:630-631 | `durative` is `finite_form` without perfective |
| Verbs.PerfectiveForm | grammar.py:632-633 | `perfective` is `finite_form` with perfective |
| Verbs.RadicalsInOrder | grammar.py:568-613 | exactly one morpheme is tagged R₁, one R₂ and one R₃, in that order, with one morpheme between R₂ and R₃ |
| Verbs.RadicalTexts | grammar.py:568-613 | R₁ is the first root letter, `y` or `n`; R₃ is the last; R₂ is doubled exactly in the D stem and in the durative outside the Š stem of a strong R₁ and the Ntn stem |
| Verbs.SecondRadicalText | grammar.py:591-596 | R₂ is doubled exactly under those conditions |
| Verbs.PersonalSuffixAfterRadicals | grammar.py:614-615 | the personal suffix comes right after R₃ |
| Verbs.VentiveForced | grammar.py:544-546 | the ventive suffix (appended at lines 618-619) is present exactly when asked for or when an object is first singular |
| Verbs.SubjunctivePlacement | grammar.py:616-617 | the subjunctive `u` is present exactly when asked for without the ventive (which turns it off at lines 547-548) and after a silent personal suffix, and then it follows that suffix |
| Verbs.ConjunctionLast | grammar.py:626-627 | with the connective `-ma` is the last morpheme; without it no morpheme is `-ma` |
| Verbs.InfixPlacement | grammar.py:559-579 | the t or tan morpheme stands just before R₁ in the N and Š stems and just after it otherwise; without `t` there is none |
| Verbs.HeadAt | grammar.py:552-579 | where R₁ and the t morpheme stand in the morphemes up to R₁'s infix |
| Verbs.SuffixesAt | grammar.py:614-627 | where the subjunctive, ventive and connective stand among the suffixes |
| Lexicon.RootsLong | lexicon.py:6-34 | every verb of the module's list has a root long enough for the letters `finite_form` reads |
| Lexicon.SubjChoices | lexicon.py:50 | only the indicative with the ventive, both moods without it |
| Lexicon.CallFor | lexicon.py:55-65 | the call asks for the given verb, agreement, loop values and block |
| Lexicon.GenderCallsExactly | lexicon.py:54-56 | the gender loop calls exactly the genders from the current one on, with the fixed verb, values, block, number and person |
| Lexicon.PersonCallsExactly | lexicon.py:53-56 | the person loop calls exactly persons 1, 2 and 3 from the current one on |
| Lexicon.NumberCallsExactly | lexicon.py:52-56 | the number loop calls exactly the numbers from the current one on, and never the gloss-only person |
| Lexicon.BlockCallsExactly | lexicon.py:52-66 | the three blocks call exactly the durative, perfective and perfective-with-`t` forms from the current block on |
| Lexicon.VerbCallsExactly | lexicon.py:51-66 | the verb loop calls exactly the verbs listed from the current one on |
| Lexicon.SubjCallsExactly | lexicon.py:50-66 | the subjunctive loop calls exactly the allowed moods from the current one on |
| Lexicon.VentCallsExactly | lexicon.py:49-66 | the ventive loop calls both ventive settings from the current one on, and never a subjunctive ventive |
| Lexicon.ConjCallsExactly | lexicon.py:48-66 | the connective loop calls both connective settings from the current one on |
| Lexicon.StemCallsExactly | lexicon.py:47-66 | the stem loop calls every stem from the current one on |
| Lexicon.AddFormsCallsExactly | lexicon.py:47-66 | `add_forms(acc)` generates exactly the forms of every listed verb, stem, connective and mood without a subjunctive ventive, every block and every agreement, with that object |
| Lexicon.Form | lexicon.py:55-65 | calling `durative` in the first block and `perfective` in the other two gives the generated form |
| Lexicon.RunAppend | lexicon.py:47-66 | running two call lists in sequence is running their concatenation, and an exception stops it |
| Lexicon.StoreFiles | lexicon.py:56 | filing a form puts it under its text and gloss key, replaces an earlier form with the same key, and keeps every other entry |
| Lexicon.HomophonesCoexist | lexicon.py:56 | two forms with the same text and different glosses are both kept |
| Lexicon.RunKeeps | lexicon.py:47-66 | a run only adds or replaces entries, and keeps every form filed under its own text and key |
| Lexicon.RunFiles | lexicon.py:47-66 | after a run without exception, every call's form is filed under its text and key |
| Lexicon.FoldedBuckets | lexicon.py:74-75 | every form is filed under its spelling without vowel length, and nothing else enters |
| Lexicon.BucketKeysAreShort | lexicon.py:74-75 | every bucket key is its own folded spelling |
| Lexicon.FoldedNothing | lexicon.py:74-75 | folding no forms keeps the buckets |
| Lexicon.FoldedStep | lexicon.py:74-75 | folding one more form adds it to the bucket of its folded spelling |
| Lexicon.AddFormsFiles | lexicon.py:41-66 | after `add_forms(acc)` for a new object without exception, every enumerated form is filed under its text and key |
| Lexicon.AddFormsMemo | lexicon.py:42-44 | `add_forms` marks the object loaded, and a second call with it changes nothing |
| Lexicon.LoadAllKeeps | lexicon.py:68-72 | loading every object only adds or replaces entries, and keeps forms filed consistently |
| Lexicon.Index.constructor | lexicon.py:36-39 | three empty tables, with the gloss key, generator and verb list given |
| Lexicon.Index.AddForms | lexicon.py:41-66 | the tables and loaded objects after the loops are those of `add_forms` on values |
| Lexicon.Index.AddStem | lexicon.py:48-66 | one turn of the stem loop files exactly the calls of the connective loop |
| Lexicon.Index.AddConj | lexicon.py:49-66 | one turn of the connective loop files exactly the calls of the ventive loop |
| Lexicon.Index.AddVent | lexicon.py:50-66 | one turn of the ventive loop files exactly the calls of the subjunctive loop |
| Lexicon.Index.AddVerbs | lexicon.py:51-66 | one turn of the subjunctive loop files exactly the calls of the verb loop |
| Lexicon.Index.AddVerb | lexicon.py:52-66 | one verb files exactly the calls of its three blocks |
| Lexicon.Index.AddBlock | lexicon.py:52-56 | one block files exactly the calls of its number loop |
| Lexicon.Index.AddNumber | lexicon.py:53-56 | one number files exactly the calls of its person loop |
| Lexicon.Index.AddPerson | lexicon.py:54-56 | one person files exactly the calls of its gender loop |
| Lexicon.Index.AddForm | lexicon.py:55-56 | one form is generated and filed, or its exception is returned |
| Lexicon.Index.FoldForms | lexicon.py:74-75 | the buckets after the loop are the folding of every filed text |
| Lexicon.LoadFrom | lexicon.py:36-75 | the tables after the module body are those of loading every object in order, and the buckets are the folding of the texts when no exception occurred |
| Lexicon.Load | lexicon.py:6-75 | the same, with the module's own 27 verbs |
| Paradigm.DurativeUnderlying | grammar.py:533-628 | for a root whose first radical is not `w`, the G durative 3rd singular is well formed and lays out `i`, R₁, the aspect vowel `a`, R₂ doubled, the theme vowel, R₃ and the silent personal suffix |
| Paradigm.OpenSyllablesUnassimilated | grammar.py:405-454 | where every morpheme followed by a consonant ends in a short vowel, the b, m and n assimilations change nothing |
| Paradigm.DurativeUnchanged | grammar.py:226-233 | on that layout with strong radicals and a short vowel, every pass from the contraction to the n assimilation leaves the word as it is |
| Paradigm.DurativeUnsyncopated | grammar.py:456-458 | the syncope pattern matches nowhere in `iC₁aC₂C₂VC₃` or `iC₁aC₂C₂V` |
| Paradigm.AlephAfterVowel | grammar.py:401-403 | a final ʾ after the durative vowel, with no overt morpheme after it, is emptied and nothing else changes |
| Paradigm.DurativeLosesAleph | grammar.py:312-403 | the loss of consonants empties that ʾ without error and keeps every other morpheme |
| Paradigm.QuietPasses | grammar.py:223-235 | when every pass but the loss of consonants and the merge leaves the word as it is, the cascade is that loss followed by the merge |
| Paradigm.DurativeRootClears | grammar.py:497-523 | in the G durative 3rd singular each radical is carried by one morpheme, once, so the root morpheme keeps no radical feature |
| Paradigm.DurativeAfterLoss | grammar.py:218-235 | once the loss of consonants leaves the layout, the decomposition succeeds and shows `i`, R₁, `a`, R₂R₂, the vowel and what is left of R₃ |
| Paradigm.StrongDurative | grammar.py:218-235 | for every root of three strong consonants and every short durative vowel, the G durative 3rd singular of any gender decomposes without error and reads `iC₁aC₂C₂VC₃` |
| Paradigm.ThirdAlephDurative | grammar.py:401-403 | for strong R₁ and R₂ and R₃ = ʾ, the same form decomposes without error and reads `iC₁aC₂C₂V`: the ʾ is lost |
| Paradigm.DurativeOfPrs | lexicon.py:25 | the durative 3rd singular of `prs` is `iparras` |
| Paradigm.DurativeOfBna | lexicon.py:11 | the durative 3rd singular of `bnʾ` is `ibanni` |

## Left out

- Glosses and rendering: `Morpheme.gloss`, `KamilDecomposition.__str__` and the `__repr__`/`__str__` of the features are not modelled. The gloss key `str(gloss)` of lexicon.py:56 is a function field `key` of `Lexicon.Index`, so every property of the index holds for any rendering.
- `object_language` (grammar.py:134-138) is modelled only as far as `plain_text` uses it for infixes.
- `matches_spelling` (grammar.py:247-258) is left out: it builds a pattern and returns nothing.
- `gloss_verbs.py`, `generate_paradigm_tables.py` and `grammar_test.py` are not part of this model. They are a command-line front end, a table printer and tests.
- The progress message written to standard error at lexicon.py:45-46 is I/O and is left out.
- Unicode normalisation (`unicodedata`, NFC and NFD) is replaced by explicit letter tables for the letters the generator uses.
  - A final letter with no precomposed macron form gets U+0304 appended.
- `Lexicon.Index` takes the form generator and the verb list as parameters, so its proofs do not unfold the cascade. `Lexicon.Form` proves that the durative/perfective dispatch is `Lexicon.Generated`, and `Lexicon.Load` fixes the verb list to the module's 27 verbs.
- Dictionary and set iteration order are not modelled: the forms table is a map and the folding loop takes its texts in any order. The result does not depend on that order.
- The lexicon passes `t=True` in its third block (lexicon.py:65). grammar.py compares `t` with `Label.t` (lines 579 and 588), and `True` is not `Label.t`. The model reads the third block as `t=Label.t`, the perfect the block is evidently meant to build.
- Persons have one type in the model. The source mixes two:
  - The callers pass the integers 1, 2 and 3 (lexicon.py:53).
  - The affix functions compare with `Person(1)` and `Person(2)` objects (grammar.py:153-170), which never equal an integer.
  - The ventive compares with the integer 1 (grammar.py:174), which never equals a `Person`.
  - The model reads every person as a `Person` and every comparison as the person test it evidently means. The row under "## Findings" records the one comparison that fails for the annotated type.
- `acc[0] == 1` and `dat[0] == 1` (grammar.py:544-545) are read the same way: as "the object is first person".
- WeakConsonants.WeakSecondTest: its contract states only which morphemes it may touch. The `hlk` special cases of grammar.py:385-394 are in the function, not in a lemma.
- RootMerge.RootMorpheme: its own contract does not state which features are removed; `RootMorphemeRadicals` states it.
- RootMerge.MergeScanned: like `MergeRoot`, its own contract states only the failure kinds.
- RootMerge.MergeRoot: its own contract states only the failure kinds. `MergeRootLayout`, `MergeOfScan` and `MergeRootClearsRadicals` state the result for a word whose radicals are laid out as `finite_form` lays them out.
- RootMerge.MergeRootClearsRadicals: it promises a root gloss without radical features only when no radical is repeated among the morphemes from R₁ to R₃. Otherwise a t or tan morpheme carrying a radical already collected leaves that radical in the gloss, because grammar.py:509 adds the infix's radicals without deduplication.
- Syncope.DeleteFrom: its contract does not state the joined text. `SyncopateDeletesFound` states the resulting word and its joined text for a word without infixes, which is every word the passes before it produce.
- The IndexError that `self.morphemes[k]` raises at grammar.py:367 when no overt morpheme follows is the failure `NothingToLengthen`. Index -1 from `previous_overt_morpheme`, read at grammar.py:386 and 391, wraps to the last morpheme as in Python.

## Findings

| source | as written | input that shows it | evidently intended | confidence | as-written member | corrected member |
|---|---|---|---|---|---|---|
| grammar.py:174 | `p != 1` compares the annotated `Person` with the integer 1, which is never equal, so every plural ventive is `nim` | `ventive(Person(1), Gender.M, Number.PL)` gives `nim` (lemma `Affixes.VentiveFirstPluralDiffers`) | the first plural ventive is `am`; only the second and third plural take `nim` | not executed | Affixes.VentiveSuffixAsWritten | Affixes.VentiveSuffix |
