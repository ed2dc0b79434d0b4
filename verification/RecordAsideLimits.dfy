/**
 The one family of titles an aside can re-key: those whose every word the fences drop, so
 that `record_key` falls back to the whole title, aside and all.
 */
module RecordAsideLimits {
  import opened Options
  import opened Text
  import opened Pattern
  import opened TitleKey
  import opened RecordKeys
  import opened RecordAside
  import WordPlaces
  import Phrases

  // ----- No phrase begins in a plain word -----

  /** The pattern can only match where one of `chars` stands. */
  predicate Opens(p: Regex, chars: set<char>) {
    && |p| >= 2 && p[0].Edge? && Consumes(p[1])
    && (p[1].Digit? ==> forall c :: IsDigit(c) ==> c in chars)
    && (p[1].OneOf? ==> forall w :: w in p[1].words ==> w != "" && w[0] in chars)
  }

  lemma {:induction false} NoneOf(words: seq<string>, rest: Regex, s: string, j: nat)
    requires j < |s| && forall w :: w in words ==> w != "" && w[0] != s[j]
    ensures FirstOf(words, rest, s, j) == None
  {
    if words != [] {
      assert words[0] in words;
      if j + |words[0]| <= |s| { assert s[j..j + |words[0]|][0] == s[j]; }
      assert forall w :: w in words[1..] ==> w in words;
      NoneOf(words[1..], rest, s, j);
    }
  }

  lemma NoMatch(p: Regex, chars: set<char>, s: string, j: nat)
    requires Opens(p, chars) && j < |s| && s[j] !in chars
    ensures Match(p, s, j) == None
  {
    assert p[1..][0] == p[1];
    if p[1].OneOf? { NoneOf(p[1].words, p[1..][1..], s, j); }
  }

  /** The first characters of every phrase, and of a hyphenated prefix. */
  const PHRASE_STARTS: set<char> := { '0', '1', '2', '3', '4', '5', '6', '7', '8', '9', 'b' }
  const PREFIX_STARTS: set<char> := { 'r', 'p' }

  predicate AllOpen(phrases: seq<Regex>) {
    forall p :: p in phrases ==> Opens(p, PHRASE_STARTS) && Avoids(p, '(')
  }

  lemma SizeOpens()
    ensures Opens(SIZE, PHRASE_STARTS) && Avoids(SIZE, '(')
  {
  }

  lemma WeightOpens()
    ensures Opens(WEIGHT, PHRASE_STARTS) && Avoids(WEIGHT, '(')
  {
  }

  lemma CountOpens()
    ensures Opens(COUNT, PHRASE_STARTS) && Avoids(COUNT, '(')
  {
  }

  lemma BoxSetOpens()
    ensures Opens(BOX_SET, PHRASE_STARTS) && Avoids(BOX_SET, '(')
  {
  }

  lemma HyphenatedOpens()
    ensures Opens(HYPHENATED, PREFIX_STARTS) && Avoids(HYPHENATED, '(')
  {
  }

  lemma PhrasesOpen()
    ensures AllOpen(PHRASES + [BOX_SET]) && AllOpen(PHRASES)
  {
    hide Opens, Avoids, SIZE, WEIGHT, COUNT, BOX_SET, PHRASE_STARTS;
    SizeOpens();
    WeightOpens();
    CountOpens();
    BoxSetOpens();
  }

  /** A lower-case word no phrase can begin in. */
  predicate PlainWord(w: string) {
    w != "" && forall i :: 0 <= i < |w| ==> 'a' <= w[i] <= 'z' && w[i] !in PHRASE_STARTS && w[i] !in PREFIX_STARTS
  }

  lemma SubThrough(p: Regex, keep: bool, chars: set<char>, s: string, w: string) returns (head: string)
    requires Opens(p, chars) && Avoids(p, '(') && '(' !in chars && ')' !in chars
    requires forall i :: 0 <= i < |w| ==> w[i] !in chars
    ensures Sub(p, keep, s + Fenced(w), 0) == head + Fenced(w)
  {
    var t := s + Fenced(w);
    assert t[|s|..] == Fenced(w) && t[|s|] == '(';
    forall j: nat | |s| <= j < |t| ensures Match(p, t, j) == None {
      assert t[j] == Fenced(w)[j - |s|];
      NoMatch(p, chars, t, j);
    }
    head := SubKeepsTail(p, keep, '(', t, 0, |s|);
  }

  lemma {:induction false} CleanedThrough(phrases: seq<Regex>, s: string, w: string) returns (head: string)
    requires AllOpen(phrases) && PlainWord(w)
    ensures Cleaned(phrases, s + Fenced(w)) == head + Fenced(w)
  {
    if phrases == [] {
      head := s;
    } else {
      assert phrases[0] in phrases;
      var next := SubThrough(phrases[0], false, PHRASE_STARTS, s, w);
      head := CleanedThrough(phrases[1..], next, w);
    }
  }

  lemma {:induction false} CleanedNothing(phrases: seq<Regex>, s: string)
    requires AllOpen(phrases) && forall i :: 0 <= i < |s| ==> s[i] !in PHRASE_STARTS
    ensures Cleaned(phrases, s) == s
  {
    if phrases != [] {
      var p := phrases[0];
      assert p in phrases;
      forall j: nat | j < |s| ensures Match(p, s, j) == None { NoMatch(p, PHRASE_STARTS, s, j); }
      SubNothing(p, false, s, 0);
      assert s[0..] == s;
      CleanedNothing(phrases[1..], s);
    }
  }

  // ----- A fenced word is a variant, and the last token of a title keyed whole -----

  predicate Witness(v: Vocabulary, w: string) {
    PlainWord(w) && w in v.variant && w !in v.noise && w !in v.nameable
  }

  lemma WitnessIsVariant(v: Vocabulary, w: string)
    requires Witness(v, w)
    ensures IsVariant(v, Fenced(w)) && ')' !in w && SepFree(w)
  {
    hide Cleaned;
    FoldSame(Fenced(w));
    PhrasesOpen();
    CleanedNothing(PHRASES + [BOX_SET], Fenced(w));
    FencedWord("", w);
    assert "" + Fenced(w) == Fenced(w) && Words("") == [];
  }

  lemma FencedWord(s: string, w: string)
    requires PlainWord(w)
    ensures Words(s + Fenced(w)) == Words(s) + [w]
  {
    WordsEndWith(s, '(', w, ')');
    assert s + ['('] + w + [')'] == s + Fenced(w);
  }

  lemma {:induction false} SurvivingLast(words: seq<string>, w: string, noise: set<string>)
    requires w !in noise
    ensures var kept := Surviving(words + [w], noise); kept != [] && kept[|kept| - 1] == w
  {
    if words != [] {
      SurvivingLast(words[1..], w, noise);
      assert (words + [w])[1..] == words[1..] + [w];
    }
  }

  lemma PreparedThrough(title: string, w: string, artist: Option<string>) returns (head: string)
    requires EndsFirm(Fold(title)) && PlainWord(w)
    ensures Prepared(WithAside(title, w), artist, true) == head + Fenced(w)
  {
    hide Sub, Replaced, StripForms;
    var whole := WithAside(title, w);
    FoldAppend(title, " " + Fenced(w));
    FoldSame(" " + Fenced(w));
    if artist.Some? { StripFormsSame(Fold(title), " " + Fenced(w), Forms(artist.value)); }
    var rest := WithoutArtist(Fold(title), artist);
    assert WithoutArtist(Fold(whole), artist) == rest + (" " + Fenced(w));
    Regroup(rest, " ", Fenced(w));
    HyphenatedOpens();
    var joined := SubThrough(HYPHENATED, true, PREFIX_STARTS, rest + " ", w);
    ReplacedAppend(joined, Fenced(w), '&', " and ");
    Unreplaced(Fenced(w), '&', " and ");
    head := Replaced(joined, '&', " and ");
  }

  lemma LastToken(v: Vocabulary, title: string, w: string, artist: Option<string>)
    requires EndsFirm(Fold(title)) && Witness(v, w)
    ensures var tokens := Tokens(v, WithAside(title, w), artist, true);
            AreWords(tokens) && tokens[|tokens| - 1] == w
  {
    hide Cleaned, Prepared, Surviving, Fenced, PlainWord;
    var head := PreparedThrough(title, w, artist);
    PhrasesOpen();
    var cleaned := CleanedThrough(PHRASES, head, w);
    FencedWord(cleaned, w);
    SurvivingLast(Words(cleaned), w, v.Noise(true));
    ScanIsWords(cleaned + Fenced(w));
    var kept := Surviving(Words(cleaned) + [w], v.Noise(true));
    assert w in kept && w !in v.nameable;
  }

  lemma KeysDiffer(v: Vocabulary, title: string, w: string, x: string, artist: Option<string>)
    requires EndsFirm(Fold(title)) && Witness(v, w) && Witness(v, x) && w != x
    ensures Key(v, WithAside(title, w), artist, true) != Key(v, WithAside(title, x), artist, true)
  {
    hide Tokens, Joined;
    LastToken(v, title, w, artist);
    LastToken(v, title, x, artist);
    JoinedWords(Tokens(v, WithAside(title, w), artist, true));
    JoinedWords(Tokens(v, WithAside(title, x), artist, true));
  }

  // ----- A bare number is no variant -----

  /** Only digits and the brackets around them. */
  predicate Numeral(s: string) { forall c :: c in s ==> IsDigit(c) || c == '(' || c == ')' }

  lemma NumeralLacks(s: string)
    requires Numeral(s)
    ensures forall w :: w in SIZE[5].words ==> Lacks(s, w)
    ensures forall w :: w in ["g", "gm", "gr", "gram", "grams"] ==> Lacks(s, w)
    ensures Lacks(s, "lp") && Lacks(s, "ep") && Lacks(s, "box")
  {
    assert forall c :: c in s ==> c != 'g' && c != 'p' && c != 'o' && c != 'i' && c != '"' && c != '\'' && c != RIGHT_DOUBLE_QUOTE[0];
    assert 'p' in "lp" && 'p' in "ep" && 'o' in "box" && 'i' in "inch" && 'i' in "in." && 'i' in "in";
    assert 'g' in "g" && 'g' in "gm" && 'g' in "gr" && 'g' in "gram" && 'g' in "grams";
    assert '"' in "\"" && '\'' in "''" && RIGHT_DOUBLE_QUOTE[0] in RIGHT_DOUBLE_QUOTE;
  }

  lemma NumeralMatchesNoPhrase(s: string, i: nat)
    requires Numeral(s) && i <= |s|
    ensures forall p :: p in PHRASES + [BOX_SET] ==> Match(p, s, i) == None
  {
    NumeralLacks(s);
    hide Match, Lacks, Numeral;
    NoneWithoutItsWords(SIZE, 5, s, i);
    NoneWithoutItsWords(WEIGHT, 7, s, i);
    NoneWithoutItsWords(COUNT, 9, s, i);
    NoneWithoutItsWords(BOX_SET, 1, s, i);
  }

  lemma {:induction false} NumeralIsCleaned(phrases: seq<Regex>, s: string)
    requires Numeral(s) && forall p :: p in phrases ==> p in PHRASES + [BOX_SET]
    ensures Cleaned(phrases, s) == s
  {
    hide Match, Numeral, PHRASES, BOX_SET;
    if phrases != [] {
      var p := phrases[0];
      forall j: nat | j < |s| ensures Match(p, s, j) == None { NumeralMatchesNoPhrase(s, j); }
      SubNothing(p, false, s, 0);
      assert s[0..] == s;
      NumeralIsCleaned(phrases[1..], s);
    }
  }

  /** A number alone in brackets never reads as pressing wording: it is usually which
      record of a series this is, and dropping it would merge two records. */
  lemma ABareNumberIsNoVariant(v: Vocabulary, n: string)
    requires Digits(n) && n !in v.noise && n !in v.variant
    ensures !IsVariant(v, Fenced(n))
  {
    hide Cleaned, PHRASES, BOX_SET;
    FoldSame(Fenced(n));
    assert Numeral(Fenced(n));
    NumeralIsCleaned(PHRASES + [BOX_SET], Fenced(n));
    WordsEndWith("", '(', n, ')');
    assert "" + ['('] + n + [')'] == Fenced(n) && Words("") == [] && [] + [n] == [n];
  }

  // ----- A weight alone is one -----

  predicate Grams(number: string, unit: string) {
    && 2 <= |number| <= 3 && (forall i :: 0 <= i < |number| ==> IsDigit(number[i]))
    && unit in ["g", "gm", "gr", "gram", "grams"]
  }

  lemma GramLetters(number: string, unit: string)
    requires Grams(number, unit)
    ensures forall c :: c in number + unit ==> IsDigit(c) || c == 'g' || c == 'm' || c == 'r' || c == 'a' || c == 's'
  {
  }

  lemma GramsLackSizes(number: string, unit: string)
    requires Grams(number, unit)
    ensures forall w :: w in SIZE[5].words ==> Lacks(number + unit, w)
  {
    GramLetters(number, unit);
    var s := number + unit;
    assert 'i' !in s && '"' !in s && '\'' !in s && RIGHT_DOUBLE_QUOTE[0] !in s;
    assert 'i' in "inch" && 'i' in "in." && 'i' in "in" && '"' in "\"" && '\'' in "''" && RIGHT_DOUBLE_QUOTE[0] in RIGHT_DOUBLE_QUOTE;
  }

  lemma NoSizeInGrams(number: string, unit: string)
    requires Grams(number, unit)
    ensures Sub(SIZE, false, number + unit, 0) == number + unit
  {
    hide Match, Grams;
    var s := number + unit;
    GramsLackSizes(number, unit);
    forall j: nat | j < |s| ensures Match(SIZE, s, j) == None { NoneWithoutItsWords(SIZE, 5, s, j); }
    SubNothing(SIZE, false, s, 0);
    assert s[0..] == s;
  }

  lemma WeightTakesAll(number: string, unit: string)
    requires Grams(number, unit)
    ensures Match(WEIGHT, number + unit, 0) == Some(|number + unit|)
  {
    var s := number + unit;
    assert number + "" + "" + "" + unit == s;
    Phrases.EverySpellingIsFound(number, "", "", "", unit);
    WeightIsMoreThanNothing(s);
    hide Match;
    GramLetters(number, unit);
    WordPlaces.EndsAtAnEdge(WEIGHT, s, 0);
    assert forall k :: 0 <= k < |s| ==> s[k] in s && IsWord(s[k]);
  }

  lemma WeightIsMoreThanNothing(s: string)
    ensures Match(WEIGHT, s, 0).Some? ==> Match(WEIGHT, s, 0).value >= 1
  {
    var rest := WEIGHT[1..];
    assert rest[0] == Digit;
    assert Match(WEIGHT, s, 0).Some? ==> Match(WEIGHT, s, 0) == Match(rest, s, 0);
    assert Match(rest, s, 0).Some? ==> DigitAt(s, 0) && Match(rest, s, 0) == Match(rest[1..], s, 1);
  }

  /** A weight on its own says only which pressing this is, whatever words the vocabulary
      has: "180g", "140gram". */
  lemma AWeightAloneIsAVariant(v: Vocabulary, number: string, unit: string)
    requires Grams(number, unit)
    ensures IsVariant(v, number + unit)
  {
    var s := number + unit;
    GramLetters(number, unit);
    assert forall k :: 0 <= k < |s| ==> s[k] in s;
    FoldSame(s);
    LoneWord(s);
    NoSizeInGrams(number, unit);
    WeightTakesAll(number, unit);
    CleanedGrams(s);
    WordsThen("", ' ');
    assert "" + " " == " " && Words("") == [];
    hide Cleaned, Sub, Match;
  }

  lemma CleanedTwice(p: Regex, q: Regex, rest: seq<Regex>, s: string, t: string, u: string)
    requires Sub(p, false, s, 0) == t && Sub(q, false, t, 0) == u
    ensures Cleaned([p, q] + rest, s) == Cleaned(rest, u)
  {
    hide Sub;
    assert ([p, q] + rest)[1..] == [q] + rest && ([q] + rest)[1..] == rest;
  }

  lemma TakenWhole(p: Regex, s: string)
    requires s != "" && Match(p, s, 0) == Some(|s|)
    ensures Sub(p, false, s, 0) == " "
  {
    hide Match;
    assert Sub(p, false, s, |s|) == "";
  }

  lemma CleanedGrams(s: string)
    requires s != "" && Sub(SIZE, false, s, 0) == s && Match(WEIGHT, s, 0) == Some(|s|)
    ensures Cleaned(PHRASES + [BOX_SET], s) == " "
  {
    hide Match, Sub, Cleaned, Opens, Avoids, SIZE, WEIGHT, COUNT, BOX_SET;
    PhrasesOpen();
    TakenWhole(WEIGHT, s);
    var rest := [COUNT, BOX_SET];
    assert PHRASES + [BOX_SET] == [SIZE, WEIGHT] + rest;
    CleanedTwice(SIZE, WEIGHT, rest, s, s, " ");
    assert forall p :: p in rest ==> p in PHRASES + [BOX_SET];
    CleanedNothing(rest, " ");
  }

  // ----- Exactly when -----

  /** With no name left, the title with an aside is keyed whole, like the title itself. */
  lemma KeyedWhole(v: Vocabulary, title: string, aside: string, artist: Option<string>)
    requires Appendable(v, title, '(', aside) && !LeavesAName(v, title, artist)
    ensures RecordKey(v, WithAside(title, aside), artist) == Key(v, WithAside(title, aside), artist, true)
  {
    hide SplitFront, Unfenced, Rebuilt, Key, Appendable;
    InParentheses(aside);
    AsideIsSeen(v, title, '(', aside, artist);
    RebuiltTrailing(v, Unfenced(v, Body(title, SplitFront(title, artist)), 0));
  }

  ghost predicate EveryAsideKeepsTheRecord(v: Vocabulary, title: string, artist: Option<string>) {
    forall open, aside :: Appendable(v, title, open, aside) ==> RecordKey(v, WithAsideIn(title, open, aside), artist) == RecordKey(v, title, artist)
  }

  /** For a title ending in a word with its brackets closed, every accepted aside keeps the
      record exactly when the title leaves a name. */
  lemma EveryAsideKeepsTheRecordIff(v: Vocabulary, title: string, artist: Option<string>, w: string, x: string)
    requires Complete(title) && Witness(v, w) && Witness(v, x) && w != x
    ensures EveryAsideKeepsTheRecord(v, title, artist) <==> LeavesAName(v, title, artist)
  {
    hide RecordKey, LeavesAName, Key, WithAsideIn, WithAside, IsVariant, SepFree, FencedIn;
    if LeavesAName(v, title, artist) {
      forall open, aside | Appendable(v, title, open, aside)
        ensures RecordKey(v, WithAsideIn(title, open, aside), artist) == RecordKey(v, title, artist)
      {
        AsideNeverChangesTheRecord(v, title, open, aside, artist);
      }
    } else {
      AppendableWitness(v, title, w);
      AppendableWitness(v, title, x);
      KeyedWhole(v, title, w, artist);
      KeyedWhole(v, title, x, artist);
      KeysDiffer(v, title, w, x, artist);
    }
  }

  lemma AppendableWitness(v: Vocabulary, title: string, w: string)
    requires Complete(title) && Witness(v, w)
    ensures Appendable(v, title, '(', w) && WithAsideIn(title, '(', w) == WithAside(title, w)
  {
    hide IsVariant;
    WitnessIsVariant(v, w);
    InParentheses(w);
  }

  lemma StoreColours()
    ensures "gold" in StoreVocabulary().variant && "navy" in StoreVocabulary().variant
    ensures "red" in StoreVocabulary().variant && "lp" in StoreVocabulary().noise
  {
    assert "gold" in Metals();
    assert "navy" in Gems();
    assert "red" in Colours();
    assert "lp" in Media();
  }

  lemma MediaSpare()
    ensures "gold" !in Media() && "navy" !in Media() && "gold" !in Packaging() && "navy" !in Packaging()
  {
  }

  lemma PressingsSpare()
    ensures "gold" !in Pressings() && "navy" !in Pressings() && "gold" !in Nameable() && "navy" !in Nameable()
  {
  }

  lemma GoldIsPlain()
    ensures PlainWord("gold") && PlainWord("navy")
  {
  }

  lemma StoreWitnesses()
    ensures Witness(StoreVocabulary(), "gold") && Witness(StoreVocabulary(), "navy")
  {
    StoreColours();
    MediaSpare();
    PressingsSpare();
    GoldIsPlain();
    hide Media, Pressings, Packaging, Nameable, Colours, Metals, Gems, Finishes, Effects, Editions, Extras, PlainWord;
  }

  lemma WordIsVariant(v: Vocabulary, text: string, folded: string, word: string)
    requires Fold(text) == folded && Words(folded) == [word] && (word in v.noise || word in v.variant)
    requires forall i :: 0 <= i < |folded| ==> folded[i] !in PHRASE_STARTS
    ensures IsVariant(v, text)
  {
    hide Cleaned;
    PhrasesOpen();
    CleanedNothing(PHRASES + [BOX_SET], folded);
    assert word in [word];
  }

  lemma {:induction false} Unsplit(s: string, start: nat, i: nat)
    requires start <= i <= |s| && forall k :: i <= k < |s| ==> IsAlnum(s[k])
    ensures Segments(s, start, i) == [s[start..]]
    decreases |s| - i
  {
    if i < |s| {
      SkipIs(s, i, i);
      Unsplit(s, start, i + 1);
    }
  }

  /** A name that is a fence and a trailing segment, both of one word. */
  function Bare(x: string, y: string): string { Fenced(x) + (" - " + y) }

  predicate Dropped(v: Vocabulary, w: string) {
    && w != "" && (w in v.noise || w in v.variant)
    && forall i :: 0 <= i < |w| ==> 'a' <= w[i] <= 'z' && w[i] !in PHRASE_STARTS
  }

  lemma FencedDroppedIsVariant(v: Vocabulary, x: string)
    requires Dropped(v, x)
    ensures IsVariant(v, Fenced(x))
  {
    hide IsVariant;
    FoldSame(Fenced(x));
    WordsEndWith("", '(', x, ')');
    assert "" + ['('] + x + [')'] == Fenced(x) && Words("") == [] && [] + [x] == [x];
    WordIsVariant(v, Fenced(x), Fenced(x), x);
  }

  lemma UnfencedBare(v: Vocabulary, x: string, y: string)
    requires Dropped(v, x) && Dropped(v, y)
    ensures Unfenced(v, Bare(x, y), 0) == " - " + y
  {
    hide IsVariant;
    var s := Bare(x, y);
    FencedDroppedIsVariant(v, x);
    FindIs(s, ')', 1, |x| + 1);
    assert s[0..|x| + 2] == Fenced(x) && s[|x| + 2..] == " - " + y;
    Unbracketed(v, s, |x| + 2);
  }

  lemma SegmentsBare(v: Vocabulary, y: string)
    requires Dropped(v, y)
    ensures Segments(" - " + y, 0, 0) == ["", y]
  {
    var s := " - " + y;
    SkipIs(s, 0, 1);
    SkipIs(s, 2, 3);
    assert SegmentEnd(s, 0) == Some(3);
    Unsplit(s, 3, 3);
    assert s[3..] == y && s[0..0] == "";
  }

  lemma DroppedIsVariant(v: Vocabulary, y: string)
    requires Dropped(v, y)
    ensures IsVariant(v, y)
  {
    hide IsVariant, Words, Fold;
    FoldSame(y);
    LoneWord(y);
    WordIsVariant(v, y, y, y);
  }

  lemma LoneWord(w: string)
    requires w != "" && AllAlnum(w)
    ensures Words(w) == [w]
  {
    ScanAppend("", w);
    assert "" + w == w;
  }

  lemma RebuiltBare(v: Vocabulary, y: string)
    requires Dropped(v, y)
    ensures Rebuilt(v, " - " + y) == ""
  {
    hide IsVariant, Segments, Dropped;
    SegmentsBare(v, y);
    DroppedIsVariant(v, y);
    var parts := ["", y];
    assert parts[..1] == [""] && parts[1] == y;
    assert Trimmed(v, parts) == Trimmed(v, [""]) == [""];
    assert [""][..0] == [] && !HasInk("");
    assert Rejoined([""]) == "";
  }

  lemma BareIsClosed(x: string, y: string)
    requires forall i :: 0 <= i < |x| ==> CloserOf(x[i]).None?
    requires forall i :: 0 <= i < |y| ==> CloserOf(y[i]).None?
    ensures Closed(Bare(x, y))
  {
    var s := Bare(x, y);
    assert s[|x| + 1] == ')';
    assert forall i :: 0 < i < |s| ==> CloserOf(s[i]).None?;
  }

  lemma BareShape(v: Vocabulary, x: string, y: string)
    requires Dropped(v, x) && Dropped(v, y)
    ensures Complete(Bare(x, y))
  {
    hide Closed;
    BareIsClosed(x, y);
    FoldSame(Bare(x, y));
    assert Bare(x, y)[|Bare(x, y)| - 1] == y[|y| - 1];
  }

  /** Such a title leaves no name, so it is one an aside can re-key. */
  lemma BareTitlesAreRekeyed(v: Vocabulary, x: string, y: string, w: string, z: string)
    requires Dropped(v, x) && Dropped(v, y) && Witness(v, w) && Witness(v, z) && w != z
    ensures Complete(Bare(x, y))
    ensures !EveryAsideKeepsTheRecord(v, Bare(x, y), None)
  {
    hide Unfenced, Rebuilt;
    var title := Bare(x, y);
    UnfencedBare(v, x, y);
    RebuiltBare(v, y);
    BareShape(v, x, y);
    EveryAsideKeepsTheRecordIff(v, title, None, w, z);
  }

  lemma StoreDrops()
    ensures Dropped(StoreVocabulary(), "lp") && Dropped(StoreVocabulary(), "red")
  {
    hide StoreVocabulary;
    StoreColours();
  }

  /** "(lp) - red", and "(lp) - red (gold)" or "(lp) - red (navy)". */
  lemma AnAsideCanChangeTheRecord()
    ensures !EveryAsideKeepsTheRecord(StoreVocabulary(), Bare("lp", "red"), None)
  {
    hide StoreVocabulary, Bare;
    StoreDrops();
    StoreWitnesses();
    BareTitlesAreRekeyed(StoreVocabulary(), "lp", "red", "gold", "navy");
  }
}
