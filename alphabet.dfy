/**
 * The transliteration alphabet of grammar.py and the character-level text helpers.
 *
 * Texts are strings of precomposed (NFC) letters. The source's `nfc(nfd(...))` idioms are
 * replaced by explicit tables: lengthening a final letter (adding a macron), circumflexing a
 * vowel's base, stripping length marks, and colouring a base `a` to `e`.
 */
module Alphabet {

  import opened Wrappers

  const Macron: char := '̄'
  const Circumflex: char := '̂'

  const StrongConsonants: string := "bdgḫyklmnpqrsṣštṭwz"
  const WeakConsonants: string := "ʾhḥʿwy"
  /** As in the source, `y` and `w` are listed twice: once strong, once weak. */
  const Consonants: string := StrongConsonants + WeakConsonants
  const Vowels: string := "aeuiāēūīâêûî"
  const ShortVowels: string := "aeui"
  /** Every letter or combining mark that carries a length mark. */
  const LengthMarked: string := "āēīūâêîûḡȳ" + [Macron, Circumflex]

  /** `s.startswith(cs)` for a tuple `cs` of one-letter strings. */
  predicate StartsWith(s: string, cs: string) {
    |s| > 0 && s[0] in cs
  }

  /** `s.endswith(cs)` for a tuple `cs` of one-letter strings. */
  predicate EndsWith(s: string, cs: string) {
    |s| > 0 && s[|s| - 1] in cs
  }

  /** `s in cs` for a tuple `cs` of one-letter strings: `s` is exactly one of them. */
  predicate IsOneOf(s: string, cs: string) {
    |s| == 1 && s[0] in cs
  }

  /** Python's `s[:-1]`. */
  function DropLast(s: string): (r: string)
    ensures |s| > 0 ==> r + [s[|s| - 1]] == s
    ensures |s| == 0 ==> r == []
  {
    if s == [] then [] else s[..|s| - 1]
  }

  /** Python's `s[1:]`. */
  function DropFirst(s: string): (r: string)
    ensures |s| > 0 ==> [s[0]] + r == s
    ensures |s| == 0 ==> r == []
  {
    if s == [] then [] else s[1..]
  }

  lemma ConsonantsAreNotVowels(c: char)
    requires c in Consonants
    ensures c !in Vowels && c !in ShortVowels
  {
  }

  // ---------------------------------------------------------------- lengthening

  /** The precomposed letter that `nfc(c + MACRON)` yields, when there is one. */
  function WithMacron(c: char): Option<char> {
    match c
    case 'a' => Some('ā')
    case 'e' => Some('ē')
    case 'i' => Some('ī')
    case 'u' => Some('ū')
    case 'g' => Some('ḡ')
    case 'y' => Some('ȳ')
    case _ => None
  }

  /**
   * `nfc(s + MACRON)` (grammar.py:349, 367, 399, 495): a final letter that has a precomposed
   * macron form takes it; otherwise the combining macron stays a separate character.
   */
  function Lengthen(s: string): (r: string)
    ensures EndsWith(s, ShortVowels) ==> |r| == |s| && DropLast(r) == DropLast(s) && EndsWith(r, "āēīū")
    ensures !EndsWith(s, ShortVowels) && !EndsWith(s, "gy") ==> r == s + [Macron]
  {
    if s != [] && WithMacron(s[|s| - 1]).Some? then DropLast(s) + [WithMacron(s[|s| - 1]).value]
    else s + [Macron]
  }

  // ---------------------------------------------------------------- shortening

  /** One letter of `nfc(nfd(s).replace(CIRCUMFLEX, '').replace(MACRON, ''))`. */
  function ShortenChar(c: char): string {
    match c
    case 'ā' => "a"
    case 'â' => "a"
    case 'ē' => "e"
    case 'ê' => "e"
    case 'ī' => "i"
    case 'î' => "i"
    case 'ū' => "u"
    case 'û' => "u"
    case 'ḡ' => "g"
    case 'ȳ' => "y"
    case _ => if c == Macron || c == Circumflex then "" else [c]
  }

  /** `shorten_vowels` (grammar.py:18-19): strips every macron and circumflex. */
  function ShortenVowels(s: string): (r: string)
    ensures |r| <= |s|
    ensures forall k :: 0 <= k < |r| ==> r[k] !in LengthMarked
  {
    if s == [] then [] else ShortenChar(s[0]) + ShortenVowels(s[1..])
  }

  lemma {:induction false} ShortenVowelsAppend(a: string, b: string)
    ensures ShortenVowels(a + b) == ShortenVowels(a) + ShortenVowels(b)
  {
    if a == [] {
      assert a + b == b;
    } else {
      assert (a + b)[0] == a[0] && (a + b)[1..] == a[1..] + b;
      ShortenVowelsAppend(a[1..], b);
    }
  }

  /** A text without length marks is left alone by `shorten_vowels`. */
  lemma {:induction false} ShortenVowelsUnmarked(s: string)
    requires forall k :: 0 <= k < |s| ==> s[k] !in LengthMarked
    ensures ShortenVowels(s) == s
  {
    if s != [] {
      ShortenVowelsUnmarked(s[1..]);
    }
  }

  /** Folding vowel length is idempotent. */
  lemma ShortenVowelsIdempotent(s: string)
    ensures ShortenVowels(ShortenVowels(s)) == ShortenVowels(s)
  {
    ShortenVowelsUnmarked(ShortenVowels(s));
  }

  /** Lengthening is undone by folding vowel length. */
  lemma {:induction false} ShortenVowelsLengthen(s: string)
    ensures ShortenVowels(Lengthen(s)) == ShortenVowels(s)
  {
    if s != [] && WithMacron(s[|s| - 1]).Some? {
      var c := s[|s| - 1];
      var front := DropLast(s);
      assert s == front + [c];
      assert ShortenVowels([c]) == ShortenChar(c);
      assert ShortenVowels([WithMacron(c).value]) == ShortenChar(WithMacron(c).value);
      assert ShortenChar(WithMacron(c).value) == ShortenChar(c);
      ShortenVowelsAppend(front, [c]);
      ShortenVowelsAppend(front, [WithMacron(c).value]);
    } else {
      assert ShortenVowels([Macron]) == [];
      ShortenVowelsAppend(s, [Macron]);
    }
  }

  // ---------------------------------------------------------------- vowel colouring

  /** `nfc(nfd(c).replace('a', 'e'))` for one letter. */
  function ColourChar(c: char): char {
    if c == 'a' then 'e' else if c == 'ā' then 'ē' else if c == 'â' then 'ê' else c
  }

  /** Letters whose base (the first character of their NFD) is `a`. */
  const BaseA: string := "aāâ"

  /** `nfc(nfd(s).replace('a', 'e'))` (grammar.py:310). */
  function ColourA(s: string): (r: string)
    ensures |r| == |s|
    ensures forall k :: 0 <= k < |s| ==> r[k] == ColourChar(s[k])
  {
    if s == [] then [] else [ColourChar(s[0])] + ColourA(s[1..])
  }

  /** After colouring, no letter has base `a`, and every other letter is kept. */
  lemma ColourAMeaning(s: string)
    ensures forall k :: 0 <= k < |s| ==> ColourA(s)[k] !in BaseA
    ensures forall k :: 0 <= k < |s| && s[k] !in BaseA ==> ColourA(s)[k] == s[k]
  {
  }

  lemma ColourAIdempotent(s: string)
    ensures ColourA(ColourA(s)) == ColourA(s)
  {
  }

  // ---------------------------------------------------------------- vowel contraction

  /** The base letter of a vowel: the first character of its NFD. */
  function Base(v: char): (b: char)
    requires v in Vowels
    ensures b in ShortVowels
  {
    if v in "aāâ" then 'a' else if v in "eēê" then 'e' else if v in "iīî" then 'i' else 'u'
  }

  /** `nfc(b + CIRCUMFLEX)` for a short vowel `b`. */
  function CircumflexOf(b: char): (r: char)
    requires b in ShortVowels
    ensures r in "âêîû" && r in Vowels && Base(r) == b
  {
    match b
    case 'a' => 'â'
    case 'e' => 'ê'
    case 'i' => 'î'
    case _ => 'û'
  }

  /**
   * `contract_vowels` (grammar.py:203-209): the text that replaces two adjacent vowels. A front
   * vowel before `a` is kept as it is; every other pair contracts to one circumflexed vowel, of
   * the second vowel's quality except that a long a or e before i gives ê.
   */
  function ContractVowels(v1: char, v2: char): (r: string)
    requires v1 in Vowels && v2 in Vowels
    ensures r == [v1, v2] <==> Base(v1) in "ei" && Base(v2) == 'a'
    ensures r != [v1, v2] ==> |r| == 1 && r[0] in "âêîû" && r[0] in Vowels
    ensures r != [v1, v2] && !(v1 in "āē" && Base(v2) == 'i') ==> Base(r[0]) == Base(v2)
    ensures v1 in "āē" && Base(v2) == 'i' ==> r == "ê"
  {
    if Base(v1) in "ei" && Base(v2) == 'a' then [v1, v2]
    else if v1 in "āē" && Base(v2) == 'i' then "ê"
    else [CircumflexOf(Base(v2))]
  }

  // ---------------------------------------------------------------- ungemination

  /** `s.replace(2 * c, c)`: non-overlapping pairs `cc`, from left to right, become `c`. */
  function CollapsePairs(s: string, c: char): (r: string)
    ensures |r| <= |s|
  {
    if |s| >= 2 && s[0] == c && s[1] == c then [c] + CollapsePairs(s[2..], c)
    else if s == [] then []
    else [s[0]] + CollapsePairs(s[1..], c)
  }

  /** The text after the first `k` rounds of the loop at grammar.py:21-22. */
  function Ungeminated(s: string, k: nat): string
    requires k <= |Consonants|
  {
    if k == 0 then s else CollapsePairs(Ungeminated(s, k - 1), Consonants[k - 1])
  }

  /** The letters of `s` that are not consonants, in order. */
  function NonConsonants(s: string): string {
    if s == [] then []
    else (if s[0] in Consonants then [] else [s[0]]) + NonConsonants(s[1..])
  }

  lemma {:induction false} NonConsonantsAppend(a: string, b: string)
    ensures NonConsonants(a + b) == NonConsonants(a) + NonConsonants(b)
  {
    if a == [] {
      assert a + b == b;
    } else {
      assert (a + b)[0] == a[0] && (a + b)[1..] == a[1..] + b;
      NonConsonantsAppend(a[1..], b);
    }
  }

  /** Collapsing a consonant pair deletes consonants only. */
  lemma {:induction false} CollapsePairsKeepsNonConsonants(s: string, c: char)
    requires c in Consonants
    ensures NonConsonants(CollapsePairs(s, c)) == NonConsonants(s)
  {
    if |s| >= 2 && s[0] == c && s[1] == c {
      CollapsePairsKeepsNonConsonants(s[2..], c);
      NonConsonantsAppend([c], CollapsePairs(s[2..], c));
      assert s == [c] + ([c] + s[2..]);
      NonConsonantsAppend([c], [c] + s[2..]);
      NonConsonantsAppend([c], s[2..]);
    } else if s != [] {
      CollapsePairsKeepsNonConsonants(s[1..], c);
      NonConsonantsAppend([s[0]], CollapsePairs(s[1..], c));
      assert s == [s[0]] + s[1..];
      NonConsonantsAppend([s[0]], s[1..]);
    }
  }

  /** No two equal consonants stand next to each other. */
  predicate Ungeminate(s: string) {
    forall k :: 0 <= k < |s| - 1 ==> !(s[k] in Consonants && s[k] == s[k + 1])
  }

  /** A text without doubled consonants is a fixed point of one round. */
  lemma {:induction false} CollapsePairsUngeminate(s: string, c: char)
    requires c in Consonants && Ungeminate(s)
    ensures CollapsePairs(s, c) == s
  {
    if s != [] {
      assert Ungeminate(s[1..]) by {
        forall k | 0 <= k < |s[1..]| - 1 ensures !(s[1..][k] in Consonants && s[1..][k] == s[1..][k + 1]) {
          assert s[1..][k] == s[k + 1] && s[1..][k + 1] == s[k + 2];
        }
      }
      CollapsePairsUngeminate(s[1..], c);
    }
  }

  /**
   * `ungeminate_consonants` (grammar.py:20-23): one `replace` per entry of CONSONANTS, in order.
   * It only deletes consonants, and leaves a text without doubled consonants unchanged.
   */
  method UngeminateConsonants(s: string) returns (r: string)
    ensures r == Ungeminated(s, |Consonants|)
    ensures |r| <= |s|
    ensures NonConsonants(r) == NonConsonants(s)
    ensures Ungeminate(s) ==> r == s
  {
    r := s;
    for k := 0 to |Consonants|
      invariant r == Ungeminated(s, k)
      invariant |r| <= |s|
      invariant NonConsonants(r) == NonConsonants(s)
      invariant Ungeminate(s) ==> r == s
    {
      CollapsePairsKeepsNonConsonants(r, Consonants[k]);
      if Ungeminate(s) {
        CollapsePairsUngeminate(r, Consonants[k]);
      }
      r := CollapsePairs(r, Consonants[k]);
    }
  }
}
