/**
 `title_key` of `backend/title_key.py`: the fold two listings share when they sell the
 same pressing, and, with `forRecord`, the inner half of the record key.

 Everything is stated for any vocabulary; `StoreVocabulary` is the module's own.
 */
module TitleKey {
  import opened Options
  import opened Text
  import opened Pattern

  /** `noise` says only that something is a record, `nameable` is the noise a record can be
      called, `variant` names a pressing. */
  datatype Vocabulary = Vocabulary(noise: set<string>, nameable: set<string>, variant: set<string>) {
    function Noise(forRecord: bool): set<string> { if forRecord then noise - nameable else noise }
  }

  function StoreVocabulary(): Vocabulary {
    Vocabulary(Media() + Pressings() + Packaging(), Nameable(), Colours() + Metals() + Gems() + Finishes() + Effects() + Editions() + Extras())
  }

  function Media(): set<string> {
    { "vinyl", "vinyls", "wax", "record", "records", "lp", "lps", "ep", "eps", "album", "disc", "discs",
      "lp2", "lp3", "dlp" }
  }

  function Pressings(): set<string> {
    { "limited", "ltd", "edition", "editions", "ed", "pressing", "press", "repress", "reissue", "reissued",
      "reprint", "version", "colour", "color", "coloured", "colored" }
  }

  function Packaging(): set<string> {
    { "new", "sealed", "import", "imported", "standard", "regular", "preorder", "preorders",
      "gatefold", "sleeve", "jacket", "and" }
  }

  function Nameable(): set<string> {
    { "record", "records", "album", "new", "version", "colour", "color", "coloured", "colored", "and" }
  }

  function Colours(): set<string> {
    { "black", "white", "red", "blue", "green", "yellow", "orange", "purple", "violet", "pink", "rose" }
  }

  function Metals(): set<string> {
    { "gold", "golden", "silver", "grey", "gray", "clear", "amber", "bronze", "copper", "cream", "crystal" }
  }

  function Gems(): set<string> {
    { "turquoise", "teal", "magenta", "maroon", "olive", "navy", "sky", "ruby", "emerald", "sapphire", "coke",
      "bottle" }
  }

  function Finishes(): set<string> {
    { "opaque", "translucent", "transparent", "splatter", "splattered", "marble", "marbled", "swirl",
      "swirled", "smoke", "smoky", "smoked" }
  }

  function Effects(): set<string> {
    { "glitter", "neon", "glow", "galaxy", "cloudy", "haze", "hazy", "milky", "picture", "shaped", "etched" }
  }

  function Editions(): set<string> {
    { "deluxe", "expanded", "remaster", "remastered", "remasters", "anniversary", "indie",
      "exclusive", "exclusives", "signed", "autographed", "numbered", "special", "collectors" }
  }

  function Extras(): set<string> {
    { "collector", "super", "mono", "stereo", "digipak", "digipack", "box", "boxset", "slipcase",
      "half", "speed", "halfspeed", "audiophile" }
  }

  // ----- The phrases -----

  const DASH := Perhaps(["-"])

  /** A disc size: `12"`, `7 inch`, `10-in.` */
  const SIZE: Regex :=
    [Edge, OneOf(["7", "10", "12"]), Spaces, DASH, Spaces,
     OneOf(["\"", "''", RIGHT_DOUBLE_QUOTE, "inch", "in.", "in"]), Break]

  /** A weight: `180g`, `180 gram`. */
  const WEIGHT: Regex :=
    [Edge, Digit, Digit, PerhapsDigit, Spaces, DASH, Spaces, OneOf(["g", "gm", "gr", "gram", "grams"]), Edge]

  /** A disc count: `2LP`, `2 x LPs`, `3-EP`. */
  const COUNT: Regex :=
    [Edge, Digit, Spaces, DASH, Spaces, Perhaps(["x"]), Spaces, DASH, Spaces, OneOf(["lp", "ep"]), Perhaps(["s"]), Edge]

  const BOX_SET: Regex := [Edge, OneOf(["box"]), Spaces, DASH, Spaces, OneOf(["set"]), Edge]

  const PHRASES := [SIZE, WEIGHT, COUNT]

  /** "re-issue" and "pre-order" lose their hyphen. */
  const HYPHENATED: Regex :=
    [Edge, OneOf(["re", "pre"]), OneOf(["-"]), Ahead(["issue", "press", "master", "order"])]

  function Cleaned(phrases: seq<Regex>, s: string): string {
    if phrases == [] then s else Cleaned(phrases[1..], Sub(phrases[0], false, s, 0))
  }

  // ----- An artist written in front -----

  predicate IsSep(c: char) { c == '-' || c == EN_DASH || c == EM_DASH || c == ':' || c == '/' || c == '|' }

  /** Where spaces, one separator and spaces from `i` on end. */
  function SepEnd(s: string, i: nat): (e: Option<nat>)
    requires i <= |s|
    ensures e.Some? ==> i < e.value <= |s|
  {
    var j := Skip(s, i);
    if j < |s| && IsSep(s[j]) then Some(Skip(s, j + 1)) else None
  }

  /** The spellings an artist leads a name with, longest first. */
  function Forms(artist: string): seq<string> {
    var base := Strip(Fold(artist));
    var comma := EndsWith(base, ", the");
    [base]
    + (if comma then ["the " + base[..|base| - 5]] else [])
    + (if StartsAt(base, 0, "the ") then [base[4..]] else [])
    + (if comma then [base[..|base| - 5]] else [])
  }

  /** The match of `^\s*form\s*SEP\s*`, giving back leading spaces one at a time. */
  function LeadFrom(s: string, form: string, k: nat): (e: Option<nat>)
    requires k <= |s|
    ensures e.Some? ==> 0 < e.value <= |s|
  {
    var here := if StartsAt(s, k, form) then SepEnd(s, k + |form|) else None;
    if here.Some? then here else if k > 0 then LeadFrom(s, form, k - 1) else None
  }

  function LeadEnd(s: string, form: string): (e: Option<nat>)
    ensures e.Some? ==> 0 < e.value <= |s|
  {
    LeadFrom(s, form, Skip(s, 0))
  }

  /** The form leads the text, and something is left behind it. */
  predicate Leads(s: string, form: string) {
    var e := LeadEnd(s, form);
    e.Some? && HasInk(s[e.value..])
  }

  function StripForms(s: string, forms: seq<string>): string {
    if forms == [] then s
    else if Leads(s, forms[0]) then s[LeadEnd(s, forms[0]).value..]
    else StripForms(s, forms[1..])
  }

  /** The loop over the forms, as it is written. */
  method StripLeadingArtist(s: string, artist: string) returns (rest: string)
    ensures rest == StripForms(s, Forms(artist))
  {
    var forms := Forms(artist);
    rest := s;
    for i := 0 to |forms|
      invariant StripForms(s, forms) == StripForms(s, forms[i..]) && rest == s
    {
      assert forms[i..][1..] == forms[i + 1..];
      var e := LeadEnd(s, forms[i]);
      if e.Some? && Strip(s[e.value..]) != "" {
        StripInk(s[e.value..]);
        rest := s[e.value..];
        return;
      }
      if e.Some? { StripInk(s[e.value..]); }
    }
  }

  function WithoutArtist(s: string, artist: Option<string>): string {
    if artist.None? || artist.value == "" then s else StripForms(s, Forms(artist.value))
  }

  // ----- The tokens -----

  /** The folded text the words and the phrases are looked for in. */
  function Prepared(title: string, artist: Option<string>, forRecord: bool): string {
    var joined := Sub(HYPHENATED, true, WithoutArtist(Fold(title), artist), 0);
    if forRecord then Replaced(joined, '&', " and ") else joined
  }

  function Surviving(words: seq<string>, noise: set<string>): (kept: seq<string>)
    ensures forall w :: w in kept <==> w in words && w !in noise
  {
    if words == [] then []
    else (if words[0] in noise then [] else [words[0]]) + Surviving(words[1..], noise)
  }

  /** What identifies the title: the surviving words; all of them, when nothing but noise
      survives; and its spelling, when it has no word at all. */
  function Tokens(v: Vocabulary, title: string, artist: Option<string>, forRecord: bool): (ts: seq<string>)
    ensures ts != []
  {
    var folded := Prepared(title, artist, forRecord);
    var cleaned := Cleaned(PHRASES, folded);
    var tokens := Surviving(Words(cleaned), v.Noise(forRecord));
    if exists t :: t in tokens && t !in v.nameable then tokens
    else if Words(folded) != [] then Words(folded)
    else [if Strip(cleaned) != "" then Strip(cleaned) else Strip(title)]
  }

  function Joined(words: seq<string>): string
    requires words != []
  {
    if |words| == 1 then words[0] else Joined(words[..|words| - 1]) + " " + words[|words| - 1]
  }

  /** Code point order. */
  predicate Less(a: string, b: string) {
    b != "" && (a == "" || a[0] < b[0] || (a[0] == b[0] && Less(a[1..], b[1..])))
  }

  function Inserted(w: string, ws: seq<string>): (r: seq<string>)
    ensures r != []
  {
    if ws == [] then [w]
    else if w == ws[0] then ws
    else if Less(w, ws[0]) then [w] + ws
    else [ws[0]] + Inserted(w, ws[1..])
  }

  /** `sorted(set(tokens))` */
  function SortedSet(tokens: seq<string>): (r: seq<string>)
    ensures tokens != [] ==> r != []
  {
    if tokens == [] then [] else Inserted(tokens[0], SortedSet(tokens[1..]))
  }

  function Key(v: Vocabulary, title: string, artist: Option<string>, forRecord: bool): string {
    var tokens := Tokens(v, title, artist, forRecord);
    if forRecord then Joined(tokens) else Joined(SortedSet(tokens))
  }

  // ----- Sorting -----

  lemma {:induction false} LessIsStrict(a: string, b: string, c: string)
    ensures !Less(a, a)
    ensures Less(a, b) && Less(b, c) ==> Less(a, c)
    ensures a == b || Less(a, b) || Less(b, a)
  {
    if a != "" { LessIsStrict(a[1..], a[1..], a[1..]); }
    if a != "" && b != "" {
      LessIsStrict(a[1..], b[1..], if c == "" then "" else c[1..]);
      assert a == [a[0]] + a[1..] && b == [b[0]] + b[1..];
    }
  }

  predicate Ascending(ws: seq<string>) {
    forall i, j :: 0 <= i < j < |ws| ==> Less(ws[i], ws[j])
  }

  lemma {:induction false} InsertedIs(w: string, ws: seq<string>)
    requires Ascending(ws)
    ensures Ascending(Inserted(w, ws))
    ensures forall x :: x in Inserted(w, ws) <==> x == w || x in ws
  {
    if ws != [] {
      var rest := ws[1..];
      assert ws == [ws[0]] + rest;
      LessIsStrict(w, ws[0], ws[0]);
      if Less(w, ws[0]) {
        forall j | 0 <= j < |ws| ensures Less(w, ws[j]) {
          if j > 0 { LessIsStrict(w, ws[0], ws[j]); }
        }
      } else if w != ws[0] {
        InsertedIs(w, rest);
        var tail := Inserted(w, rest);
        forall j | 0 <= j < |tail| ensures Less(ws[0], tail[j]) {
          assert tail[j] in tail;
          if tail[j] != w {
            var k :| 0 <= k < |rest| && rest[k] == tail[j];
            assert ws[k + 1] == rest[k];
            assert Less(ws[0], ws[k + 1]);
          } else {
            assert Less(ws[0], w);
          }
        }
      }
    }
  }

  lemma {:induction false} SortedSetIs(tokens: seq<string>)
    ensures Ascending(SortedSet(tokens))
    ensures forall x :: x in SortedSet(tokens) <==> x in tokens
  {
    if tokens != [] {
      SortedSetIs(tokens[1..]);
      InsertedIs(tokens[0], SortedSet(tokens[1..]));
      assert tokens == [tokens[0]] + tokens[1..];
    }
  }

  /** Ascending lists of the same words are the same list. */
  lemma {:induction false} AscendingIsUnique(a: seq<string>, b: seq<string>)
    requires Ascending(a) && Ascending(b) && forall x :: x in a <==> x in b
    ensures a == b
  {
    assert (b != [] ==> b[0] in b) && (a != [] ==> a[0] in a);
    if a != [] {
      SameLeast(a, b);
      assert a == [a[0]] + a[1..] && b == [b[0]] + b[1..];
      forall x ensures x in a[1..] <==> x in b[1..] {
        InTail(a, x);
        InTail(b, x);
      }
      AscendingIsUnique(a[1..], b[1..]);
    }
  }

  lemma InTail(ws: seq<string>, x: string)
    requires ws != [] && Ascending(ws)
    ensures x in ws[1..] <==> x in ws && x != ws[0]
  {
    assert ws == [ws[0]] + ws[1..];
    if x in ws[1..] {
      var k :| 0 <= k < |ws[1..]| && ws[1..][k] == x;
      assert ws[k + 1] == x;
      LessIsStrict(x, x, x);
    }
  }

  lemma SameLeast(a: seq<string>, b: seq<string>)
    requires a != [] && b != [] && Ascending(a) && Ascending(b) && forall x :: x in a <==> x in b
    ensures a[0] == b[0]
  {
    assert a[0] in a && b[0] in b;
    var i :| 0 <= i < |b| && b[i] == a[0];
    var j :| 0 <= j < |a| && a[j] == b[0];
    LessIsStrict(a[0], b[0], a[0]);
  }

  // ----- When two keys are equal -----

  lemma {:induction false} JoinedWords(ws: seq<string>)
    requires ws != [] && AreWords(ws)
    ensures Words(Joined(ws)) == ws && Joined(ws) != ""
  {
    var last := ws[|ws| - 1];
    assert last in ws;
    if |ws| == 1 {
      ScanAppend("", last);
      assert "" + last == last && ws == [last];
    } else {
      var init := ws[..|ws| - 1];
      assert AllAlnum(last) && forall w :: w in init ==> w in ws;
      JoinedWords(init);
      WordThen(Joined(init), last);
      assert ws == init + [last];
    }
  }

  lemma WordThen(s: string, w: string)
    requires w != "" && AllAlnum(w)
    ensures Words(s + " " + w) == Words(s) + [w]
  {
    WordsThen(s, ' ');
    ScanAppend(s + " ", w);
    assert "" + w == w;
  }

  /** The title has a letter or a digit left once its artist is off the front. */
  predicate HasWord(title: string, artist: Option<string>, forRecord: bool) {
    Words(Prepared(title, artist, forRecord)) != []
  }

  lemma TokensAreWords(v: Vocabulary, title: string, artist: Option<string>, forRecord: bool)
    requires HasWord(title, artist, forRecord)
    ensures AreWords(Tokens(v, title, artist, forRecord))
  {
    var folded := Prepared(title, artist, forRecord);
    ScanIsWords(Cleaned(PHRASES, folded));
    ScanIsWords(folded);
  }

  /** Two pressing keys are equal exactly when the same set of words identifies both. */
  lemma PressingKeysEqualIff(v: Vocabulary, t: string, a: Option<string>, u: string, b: Option<string>)
    requires HasWord(t, a, false) && HasWord(u, b, false)
    ensures Key(v, t, a, false) == Key(v, u, b, false) <==>
            (forall w :: w in Tokens(v, t, a, false) <==> w in Tokens(v, u, b, false))
  {
    hide Tokens, HasWord, Joined;
    var x, y := Tokens(v, t, a, false), Tokens(v, u, b, false);
    TokensAreWords(v, t, a, false);
    TokensAreWords(v, u, b, false);
    SortedSetIs(x);
    SortedSetIs(y);
    JoinedWords(SortedSet(x));
    JoinedWords(SortedSet(y));
    if forall w :: w in x <==> w in y { AscendingIsUnique(SortedSet(x), SortedSet(y)); }
  }

  /** Two inner record keys are equal exactly when the same words do, in the same order and
      as often. */
  lemma RecordKeysEqualIff(v: Vocabulary, t: string, a: Option<string>, u: string, b: Option<string>)
    requires HasWord(t, a, true) && HasWord(u, b, true)
    ensures Key(v, t, a, true) == Key(v, u, b, true) <==> Tokens(v, t, a, true) == Tokens(v, u, b, true)
  {
    hide Tokens, HasWord, Joined;
    TokensAreWords(v, t, a, true);
    TokensAreWords(v, u, b, true);
    JoinedWords(Tokens(v, t, a, true));
    JoinedWords(Tokens(v, u, b, true));
  }

  /** Where a title has a word of its own, its keys hold exactly the words left once the
      phrases are out that are no noise; and the record's also the noise a record can be
      called. */
  lemma WhatIdentifies(v: Vocabulary, title: string, artist: Option<string>, forRecord: bool, own: string, w: string)
    requires own in Words(Cleaned(PHRASES, Prepared(title, artist, forRecord))) && own !in v.noise && own !in v.nameable
    ensures w in Words(Key(v, title, artist, forRecord)) <==>
            && w in Words(Cleaned(PHRASES, Prepared(title, artist, forRecord)))
            && (w !in v.noise || (forRecord && w in v.nameable))
  {
    hide Words, Cleaned, Prepared, Joined, SortedSet, Inserted;
    var folded := Prepared(title, artist, forRecord);
    var tokens := Tokens(v, title, artist, forRecord);
    assert own in tokens;
    ScanIsWords(Cleaned(PHRASES, folded));
    SortedSetIs(tokens);
    JoinedWords(tokens);
    JoinedWords(SortedSet(tokens));
  }

  /** No title with anything in it has an empty key, titles made only of noise included. */
  lemma KeyIsNeverEmpty(v: Vocabulary, title: string, artist: Option<string>, forRecord: bool)
    requires HasInk(title)
    ensures Key(v, title, artist, forRecord) != ""
  {
    hide Joined, SortedSet, Inserted;
    var tokens := Tokens(v, title, artist, forRecord);
    SortedSetIs(tokens);
    if HasWord(title, artist, forRecord) {
      TokensAreWords(v, title, artist, forRecord);
      JoinedWords(tokens);
      JoinedWords(SortedSet(tokens));
    } else {
      var folded := Prepared(title, artist, forRecord);
      var cleaned := Cleaned(PHRASES, folded);
      StripInk(title);
      ScanIsWords(cleaned);
      KeyOfSurvivors(tokens, title, cleaned);
    }
  }

  lemma KeyOfSurvivors(tokens: seq<string>, title: string, cleaned: string)
    requires AreWords(tokens) || tokens == [if Strip(cleaned) != "" then Strip(cleaned) else Strip(title)]
    requires tokens != [] && Strip(title) != ""
    ensures Joined(tokens) != "" && Joined(SortedSet(tokens)) != ""
  {
    SortedSetIs(tokens);
    if AreWords(tokens) {
      JoinedWords(tokens);
      JoinedWords(SortedSet(tokens));
    } else {
      assert tokens[1..] == [];
      assert SortedSet(tokens) == tokens;
    }
  }
}
