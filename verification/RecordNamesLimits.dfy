/**
 What the law of `RecordNames` leaves out: a word that is itself part of a phrase. Behind a
 number it can read as a size, and is lost.
 */
module RecordNamesLimits {
  import opened Options
  import opened Text
  import opened Pattern
  import opened TitleKey
  import opened RecordKeys
  import opened RecordAside
  import opened RecordAsideLimits
  import opened WordPlaces
  import opened RecordNames

  // ----- A word with a letter no phrase uses is foreign to all of them -----

  lemma {:induction false} NotSpelt(p: Regex, w: string, c: char)
    requires c in w && !IsDigit(c) && forall k, x :: 0 <= k < |p| && x in WordsOf(p[k]) ==> c !in x
    ensures !Spells(p, w)
    decreases |p|, 0
  {
    if p != [] {
      var rest := p[1..];
      assert forall x :: x in WordsOf(p[0]) ==> c !in x;
      NotSpelt(rest, w, c);
      if IsDigit(w[0]) {
        assert w == [w[0]] + w[1..];
        NotSpelt(rest, w[1..], c);
      }
      if p[0].OneOf? || p[0].Perhaps? { NotSpeltWith(p[0].words, rest, w, c); }
    }
  }

  lemma {:induction false} NotSpeltWith(words: seq<string>, rest: Regex, w: string, c: char)
    requires c in w && !IsDigit(c) && forall k, x :: 0 <= k < |rest| && x in WordsOf(rest[k]) ==> c !in x
    requires forall x :: x in words ==> c !in x
    ensures !SpellsWith(words, rest, w)
    decreases |rest|, |words| + 1
  {
    if words != [] {
      var x := words[0];
      assert x in words;
      assert Head(x) == x[..|Head(x)|] && forall d :: d in x[..|Head(x)|] ==> d in x;
      if x <= w {
        assert w == x + w[|x|..];
        NotSpelt(rest, w[|x|..], c);
      }
      NotSpeltWith(words[1..], rest, w, c);
    }
  }

  lemma NotTaken(p: Regex, w: string, c: char)
    requires c in w && !IsDigit(c) && forall k, x :: 0 <= k < |p| && x in WordsOf(p[k]) ==> c !in x
    ensures !CanTake(p, w)
  {
    forall k | 0 <= k <= |p| ensures !Spells(p[k..], w) { NotSpelt(p[k..], w, c); }
  }

  lemma LiveIsForeign()
    ensures Foreign("live")
  {
    hide CanTake;
    assert 'v' in "live";
    forall p | p in PHRASES + [BOX_SET] ensures !CanTake(p, "live") {
      assert p == SIZE || p == WEIGHT || p == COUNT || p == BOX_SET;
      NotTaken(p, "live", 'v');
    }
  }

  /** What a record can be called is among the noise, so a word outside noise and variants
      is outside all three. */
  lemma NameableIsNoise()
    ensures StoreVocabulary().nameable <= StoreVocabulary().noise
  {
    forall w | w in Nameable() ensures w in Media() + Pressings() + Packaging() {
      if w in {"record", "records", "album"} { assert w in Media(); }
      if w in {"version", "colour", "color", "coloured", "colored"} { assert w in Pressings(); }
      if w in {"new", "and"} { assert w in Packaging(); }
    }
  }

  lemma LiveIsNoNoise()
    ensures "live" !in Media() && "live" !in Pressings() && "live" !in Packaging() && "live" !in Nameable()
  {
  }

  lemma LiveIsNoColour()
    ensures "live" !in Colours() && "live" !in Metals() && "live" !in Gems() && "live" !in Finishes()
    ensures "live" !in Effects() && "live" !in Editions() && "live" !in Extras()
  {
  }

  /** So a live record is never its studio record, whatever the aside says besides: "Kid A
      (Live at Red Rocks)". */
  lemma LiveIsAnotherRecord(title: string, open: char, aside: string, artist: Option<string>)
    requires IsOpener(open) && SepFree(aside) && Unbracketing(aside) && "live" in Words(Fold(aside))
    ensures var v := StoreVocabulary();
            && "live" in Words(RecordKey(v, WithAsideIn(title, open, aside), artist))
            && ("live" !in Words(RecordKey(v, title, artist)) ==>
                RecordKey(v, WithAsideIn(title, open, aside), artist) != RecordKey(v, title, artist))
  {
    LiveIsForeign();
    LiveIsNoNoise();
    LiveIsNoColour();
    hide Media, Pressings, Packaging, Nameable, Colours, Metals, Gems, Finishes, Effects, Editions, Extras, Foreign,
         Words, RecordKey, Fold;
    assert !Digits("live") by { assert !IsDigit("live"[0]); }
    AnAsideThatNamesIsKept(StoreVocabulary(), title, open, aside, "live", artist);
  }

  // ----- A segment that reads as a size -----

  const SIZED := "12 - in"

  /** A name that ends in a number, and a segment that is a unit. */
  function Sized(x: string): string { x + " " + SIZED }

  lemma UnitMatches(s: string, k: nat)
    requires 0 < k && k + 7 == |s| && s[k..] == SIZED && !IsWord(s[k - 1])
    ensures Match(SIZE, s, k) == Some(|s|)
  {
    assert forall j :: 0 <= j < 7 ==> s[k + j] == s[k..][j];
    var n := |s|;
    var last := SIZE[6..];
    assert last == [Break] && last[1..] == [];
    assert Match(last, s, n) == Some(n);
    var units := SIZE[5].words;
    UnitIsLast(units, last, s, k + 5);
    assert SIZE[5..][0] == SIZE[5] && SIZE[5..][1..] == last;
    assert Match(SIZE[5..], s, k + 5) == Some(n);
    assert SIZE[4..][0] == Spaces && SIZE[4..][1..] == SIZE[5..];
    assert Match(SIZE[4..], s, k + 5) == Some(n);
    assert Match(SIZE[4..], s, k + 4) == Some(n);
    assert SIZE[3..][0] == DASH && SIZE[3..][1..] == SIZE[4..];
    assert s[k + 3..k + 4] == "-";
    assert FirstOf(["-"], SIZE[4..], s, k + 3) == Some(n);
    assert Match(SIZE[3..], s, k + 3) == Some(n);
    assert SIZE[2..][0] == Spaces && SIZE[2..][1..] == SIZE[3..];
    assert Match(SIZE[2..], s, k + 3) == Some(n);
    assert Match(SIZE[2..], s, k + 2) == Some(n);
    var sizes := SIZE[1].words;
    assert sizes == ["7", "10", "12"] && sizes[1..] == ["10", "12"] && sizes[1..][1..] == ["12"];
    assert s[k..k + 1] == "1" && s[k..k + 2] == "12";
    assert !StartsAt(s, k, "7") && !(k + 2 <= n && s[k..k + 2] == "10");
    assert FirstOf(["12"], SIZE[2..], s, k) == Some(n);
    assert FirstOf(["10", "12"], SIZE[2..], s, k) == Some(n);
    assert FirstOf(sizes, SIZE[2..], s, k) == Some(n);
    assert SIZE[1..][0] == SIZE[1] && SIZE[1..][1..] == SIZE[2..];
    assert Match(SIZE[1..], s, k) == Some(n);
  }

  lemma UnitIsLast(units: seq<string>, last: Regex, s: string, i: nat)
    requires units == ["\"", "''", RIGHT_DOUBLE_QUOTE, "inch", "in.", "in"]
    requires i + 2 == |s| && s[i..] == "in" && Match(last, s, |s|) == Some(|s|)
    ensures FirstOf(units, last, s, i) == Some(|s|)
  {
    assert s[i] == s[i..][0];
    assert units[1..] == ["''", RIGHT_DOUBLE_QUOTE, "inch", "in.", "in"] && units[1..][1..] == [RIGHT_DOUBLE_QUOTE, "inch", "in.", "in"];
    assert units[2..] == [RIGHT_DOUBLE_QUOTE, "inch", "in.", "in"];
    assert units[3..] == ["inch", "in.", "in"] && units[4..] == ["in.", "in"] && units[5..] == ["in"];
    assert s[i..i + 2] == "in";
    assert FirstOf(units[5..], last, s, i) == Some(|s|);
    assert FirstOf(units[4..], last, s, i) == Some(|s|) by { assert units[4..][1..] == units[5..]; }
    assert FirstOf(units[3..], last, s, i) == Some(|s|) by { assert units[3..][1..] == units[4..]; }
    assert s[i..i + 1] != RIGHT_DOUBLE_QUOTE && s[i..i + 1] != "\"" && s[i..i + 2] != "''";
    assert FirstOf(units[2..], last, s, i) == Some(|s|) by { assert units[2..][1..] == units[3..]; }
    assert FirstOf(units[1..], last, s, i) == Some(|s|) by { assert units[1..][1..] == units[2..]; }
  }

  /** A lower-case word no phrase begins in, and no vocabulary knows. */
  predicate Dummy(v: Vocabulary, x: string) { PlainWord(x) && x !in v.noise && x !in v.variant && x !in v.nameable }

  lemma SizedAt(x: string)
    ensures var s := Sized(x);
            && |s| == |x| + 8 && s[|x| + 1..] == SIZED && s[|x|] == ' '
            && (forall j :: 0 <= j < |x| ==> s[j] == x[j]) && forall j :: 0 <= j < 7 ==> s[|x| + 1 + j] == SIZED[j]
  {
  }

  lemma SizeIsTaken(x: string)
    requires PlainWord(x)
    ensures Sub(SIZE, false, Sized(x), 0) == x + "  "
  {
    hide Match, SIZE;
    SizedAt(x);
    SizeOpens();
    var s, k := Sized(x), |x| + 1;
    UnitMatches(s, k);
    assert Sub(SIZE, false, s, |s|) == "";
    assert Sub(SIZE, false, s, k) == " ";
    SizeUpTo(s, x, |x|);
    assert s[..k] == x + " ";
  }

  lemma {:induction false} SizeUpTo(s: string, x: string, n: nat)
    requires PlainWord(x) && n <= |x| && |s| == |x| + 8 && s[|x|] == ' ' && forall j :: 0 <= j < |x| ==> s[j] == x[j]
    ensures Sub(SIZE, false, s, |x| - n) == s[|x| - n..|x| + 1] + Sub(SIZE, false, s, |x| + 1)
  {
    hide Match, SIZE, Opens;
    SizeOpens();
    var i := |x| - n;
    NoMatch(SIZE, PHRASE_STARTS, s, i);
    if n > 0 { SizeUpTo(s, x, n - 1); }
    assert s[i..|x| + 1] == [s[i]] + s[i + 1..|x| + 1];
  }

  lemma {:induction false} CleanedSized(x: string)
    requires PlainWord(x)
    ensures Cleaned(PHRASES, Sized(x)) == x + "  "
  {
    hide Sub, SIZE, WEIGHT, COUNT;
    SizeIsTaken(x);
    PhrasesOpen();
    var rest := PHRASES[1..];
    assert AllOpen(rest) by { assert forall p :: p in rest ==> p in PHRASES; }
    assert forall i :: 0 <= i < |x + "  "| ==> (x + "  ")[i] !in PHRASE_STARTS;
    CleanedNothing(rest, x + "  ");
    assert PHRASES[0] == SIZE;
  }

  lemma LoneKey(v: Vocabulary, title: string, x: string)
    requires Dummy(v, x) && Prepared(title, None, true) != "" && Words(Cleaned(PHRASES, Prepared(title, None, true))) == [x]
    ensures Key(v, title, None, true) == x
  {
    hide Cleaned, Prepared, PlainWord;
    assert [x][1..] == [];
    assert Surviving([x], v.Noise(true)) == [x];
    assert x in [x];
  }

  lemma PlainPrepared(s: string)
    requires forall j :: 0 <= j < |s| ==> s[j] !in PREFIX_STARTS && !IsUpper(s[j]) && !IsApostrophe(s[j]) && s[j] != '&'
    ensures Prepared(s, None, true) == s
  {
    hide Match;
    FoldSame(s);
    HyphenatedOpens();
    forall j: nat | j < |s| ensures Match(HYPHENATED, s, j) == None { NoMatch(HYPHENATED, PREFIX_STARTS, s, j); }
    SubNothing(HYPHENATED, true, s, 0);
    assert s[0..] == s;
    Unreplaced(s, '&', " and ");
  }

  lemma SizedKey(v: Vocabulary, x: string)
    requires Dummy(v, x)
    ensures Key(v, Sized(x), None, true) == x
  {
    hide Cleaned, Prepared, Key;
    SizedAt(x);
    PlainPrepared(Sized(x));
    CleanedSized(x);
    LoneWord(x);
    WordsThen(x, ' ');
    WordsThen(x + " ", ' ');
    assert x + " " + " " == x + "  ";
    LoneKey(v, Sized(x), x);
  }

  lemma {:induction false} UnsplitTo(s: string, start: nat, i: nat, to: nat)
    requires start <= i <= to <= |s| && forall k: nat :: i <= k < to ==> SegmentEnd(s, k) == None
    ensures Segments(s, start, i) == Segments(s, start, to)
    decreases |s| - i
  {
    hide SegmentEnd;
    if i < to { UnsplitTo(s, start, i + 1, to); }
  }

  lemma NoSegmentAt(s: string, k: nat, j: nat)
    requires k <= j < |s| && !IsSpace(s[j]) && (forall m :: k <= m < j ==> IsSpace(s[m]))
    requires s[j] != '-' && s[j] != EN_DASH && s[j] != EM_DASH
    ensures SegmentEnd(s, k) == None
  {
    SkipIs(s, k, j);
  }

  lemma DashAt(s: string, k: nat)
    requires k + 3 < |s| && s[k] == ' ' && s[k + 1] == '-' && s[k + 2] == ' ' && !IsSpace(s[k + 3])
    ensures SegmentEnd(s, k) == Some(k + 3)
  {
    SkipIs(s, k, k + 1);
    SkipIs(s, k + 2, k + 3);
  }

  lemma SizedSegments(x: string)
    requires PlainWord(x)
    ensures Segments(Sized(x), 0, 0) == [x + " 12", "in"]
  {
    hide SegmentEnd;
    var s, n := Sized(x), |x|;
    SizedAt(x);
    forall k: nat | k < n + 3 ensures SegmentEnd(s, k) == None {
      NoSegmentAt(s, k, if k == n then n + 1 else k);
    }
    UnsplitTo(s, 0, 0, n + 3);
    DashAt(s, n + 3);
    Unsplit(s, n + 6, n + 6);
    assert s[0..n + 3] == x + " 12" && s[n + 6..] == "in";
  }

  lemma InIsNoVariant(v: Vocabulary)
    requires "in" !in v.noise && "in" !in v.variant
    ensures !IsVariant(v, "in")
  {
    hide Cleaned;
    FoldSame("in");
    PhrasesOpen();
    CleanedNothing(PHRASES + [BOX_SET], "in");
    LoneWord("in");
    assert "in" in ["in"];
  }

  lemma SizedRebuilt(v: Vocabulary, x: string)
    requires Dummy(v, x) && "in" !in v.noise && "in" !in v.variant
    ensures Rebuilt(v, Sized(x)) == Sized(x)
  {
    hide IsVariant, Segments;
    SizedSegments(x);
    InIsNoVariant(v);
    var parts := [x + " 12", "in"];
    assert Trimmed(v, parts) == parts;
    assert parts[..1] == [x + " 12"] && parts[1] == "in";
    assert [x + " 12"][..0] == [];
    InkSomewhere(x + " 12", 0);
    InkSomewhere("in", 0);
    assert x + " 12" in parts[..1];
    assert Rejoined([x + " 12"]) == x + " 12";
    assert Rejoined(parts) == x + " 12" + " - " + "in" == Sized(x);
    SizedAt(x);
  }

  lemma KeyedAsItIs(v: Vocabulary, title: string)
    requires (forall i :: 0 <= i < |title| ==> CloserOf(title[i]).None?) && Rebuilt(v, title) == title != ""
    ensures RecordKey(v, title, None) == Key(v, title, None, true)
  {
    hide IsVariant, Rebuilt, Key;
    Unbracketed(v, title, 0);
    assert title[0..] == title;
  }

  lemma PlainKey(v: Vocabulary, x: string)
    requires Dummy(v, x)
    ensures RecordKey(v, x, None) == x
  {
    hide Key, IsVariant, Prepared, Cleaned;
    Unsplit(x, 0, 0);
    assert x[0..] == x && [x][..0] == [];
    InkSomewhere(x, 0);
    assert Rebuilt(v, x) == x;
    KeyedAsItIs(v, x);
    PlainPrepared(x);
    PhrasesOpen();
    CleanedNothing(PHRASES, x);
    LoneWord(x);
    LoneKey(v, x, x);
  }

  /** A segment that is a unit of size, behind a name that ends in a size, is taken with it:
      "songs 12 - in" has the key of "songs", although no vocabulary knows the word. */
  lemma ASegmentCanReadAsASize(v: Vocabulary, x: string)
    requires Dummy(v, x) && "in" !in v.noise && "in" !in v.variant
    ensures RecordKey(v, x + " 12 - in", None) == x == RecordKey(v, x, None)
    ensures !Foreign("in")
  {
    hide Key, Rebuilt, Prepared, Cleaned, IsVariant;
    SizedAt(x);
    assert x + " 12 - in" == Sized(x);
    SizedRebuilt(v, x);
    KeyedAsItIs(v, Sized(x));
    SizedKey(v, x);
    PlainKey(v, x);
    InIsTaken();
  }

  lemma InIsTaken()
    ensures !Foreign("in")
  {
    hide CanTake;
    assert SIZE in PHRASES + [BOX_SET];
    InIsSpelt();
    var p := SIZE[5..];
    assert Spells(p, "in");
    assert CanTake(SIZE, "in") by { InIsWithin(); }
  }

  lemma InIsWithin()
    requires Spells(SIZE[5..], "in")
    ensures CanTake(SIZE, "in")
  {
    hide Spells;
  }

  lemma InIsSpelt()
    ensures Spells(SIZE[5..], "in")
  {
    var p, units := SIZE[5..], SIZE[5].words;
    assert p[0] == SIZE[5] && Head("in") == "in" by { assert "in"[..2] == "in"; HeadIs("in", 2); }
    hide Head, Spells;
    SpeltByTheLast(units, p[1..], "in", 5);
    SpeltFirst(p, units, "in");
  }

  lemma {:induction false} SpeltByTheLast(words: seq<string>, rest: Regex, w: string, k: nat)
    requires k < |words| && Head(words[k]) == w
    ensures SpellsWith(words, rest, w)
  {
    hide Head, Spells;
    if k > 0 { SpeltByTheLast(words[1..], rest, w, k - 1); }
  }

  lemma SpeltFirst(p: Regex, words: seq<string>, w: string)
    requires p != [] && p[0] == OneOf(words) && SpellsWith(words, p[1..], w)
    ensures Spells(p, w)
  {
    hide SpellsWith;
  }
}
