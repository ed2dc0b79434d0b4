/**
 Exactly which artists can be written in front of every title without changing its
 record: all but those with a plain space before a trailing article. "x , the" is also
 looked for as "the x " and "x ", with the space, which a rebuilt title has before its
 dash where the title itself has none.
 */
module RecordFrontLimits {
  import opened Options
  import opened Text
  import opened Pattern
  import opened TitleKey
  import opened RecordKeys
  import opened RecordAside
  import opened RecordAsideLimits
  import opened RecordFront

  /** What the artist's name is without its article, and with the article in front. */
  function Bare(artist: string): string
    requires EndsWith(Strip(Fold(artist)), ", the")
  {
    var base := Strip(Fold(artist));
    base[..|base| - 5]
  }

  function Article(artist: string): string
    requires EndsWith(Strip(Fold(artist)), ", the")
  {
    "the " + Bare(artist)
  }

  /** The title the law fails for: the artist's longest spelling without its space, an
      apostrophe the fold drops, an unspaced dash and a word. */
  function Stem(artist: string): string
    requires EndsWith(Strip(Fold(artist)), ", the")
  {
    Article(artist)[..|Article(artist)| - 1]
  }

  function Unspaced(k: string, y: string): string { k + "'" + [EN_DASH] + y }

  /** A word that is its own key. */
  predicate OwnKey(v: Vocabulary, y: string) {
    PlainWord(y) && y !in v.noise && y !in v.nameable && y !in v.variant && y != "the"
  }

  // ----- Counting characters -----

  function Count(s: string, c: char): nat {
    if s == "" then 0 else (if s[0] == c then 1 else 0) + Count(s[1..], c)
  }

  lemma {:induction false} CountAppend(s: string, t: string, c: char)
    ensures Count(s + t, c) == Count(s, c) + Count(t, c)
  {
    if s == "" {
      assert s + t == t;
    } else {
      CountAppend(s[1..], t, c);
      assert (s + t)[1..] == s[1..] + t;
    }
  }

  lemma {:induction false} CountNone(s: string, c: char)
    requires c !in s
    ensures Count(s, c) == 0
  {
    if s != "" { CountNone(s[1..], c); }
  }

  lemma CountSpaces(s: string, c: char)
    requires AllSpace(s) && !IsSpace(c)
    ensures Count(s, c) == 0
  {
    CountNone(s, c);
  }

  lemma {:induction false} CountReplaced(s: string, c: char, w: string, x: char)
    requires x != c && x !in w
    ensures Count(Replaced(s, c, w), x) == Count(s, x)
  {
    if s != "" {
      CountReplaced(s[1..], c, w, x);
      CountAppend(if s[0] == c then w else [s[0]], Replaced(s[1..], c, w), x);
      CountNone(w, x);
      CountOne(s[0], x);
    }
  }

  lemma CountOne(c: char, x: char)
    ensures Count([c], x) == if c == x then 1 else 0
  {
    assert [c][1..] == "";
  }

  lemma {:induction false} CountCollapsed(s: string, x: char)
    requires !IsSpace(x)
    ensures Count(Collapsed(s), x) == Count(s, x)
  {
    if s != "" {
      CountCollapsed(s[1..], x);
      var rest := Collapsed(s[1..]);
      if IsSpace(s[0]) {
        CountAppend(" ", rest, x);
        CountOne(' ', x);
      } else {
        CountAppend([s[0]], rest, x);
        CountOne(s[0], x);
      }
    }
  }

  lemma {:induction false} CountStripped(s: string, x: char)
    requires !IsSpace(x)
    ensures Count(Strip(s), x) == Count(s, x)
  {
    if s != "" && IsSpace(s[0]) {
      CountStripped(s[1..], x);
    } else {
      RightStripIs(s);
      var t :| AllSpace(t) && s == RightStrip(s) + t;
      CountAppend(RightStrip(s), t, x);
      CountSpaces(t, x);
    }
  }

  /** The punctuation fold moves no comma. */
  lemma CommasKept(s: string)
    ensures Count(PunctFold(s), ',') == Count(s, ',')
  {
    hide Count, Replaced, Collapsed, Strip;
    var once := Replaced(s, '&', " and ");
    CountReplaced(s, '&', " and ", ',');
    CountReplaced(once, '-', " ", ',');
    CountCollapsed(Replaced(once, '-', " "), ',');
    CountStripped(Collapsed(Replaced(once, '-', " ")), ',');
  }

  // ----- The key the artist is searched by -----

  /** Empty, or ending in a plain space. */
  predicate Opening(u: string) { u != "" ==> u[|u| - 1] == ' ' }

  lemma {:induction false} CollapsedTail(a: string, t: string)
    requires a == "" || IsSpace(a[|a| - 1])
    requires t != "" && !IsSpace(t[0])
    ensures exists u :: Opening(u) && Collapsed(a + t) == u + Collapsed(t)
  {
    if a == "" {
      assert a + t == t && Opening("") && "" + Collapsed(t) == Collapsed(t);
    } else {
      assert (a + t)[1..] == a[1..] + t;
      if |a| > 1 { assert a[1..][|a| - 2] == a[|a| - 1]; }
      CollapsedTail(a[1..], t);
      var u :| Opening(u) && Collapsed(a[1..] + t) == u + Collapsed(t);
      var rest := Collapsed(a[1..] + t);
      if IsSpace(a[0]) {
        if rest != "" && rest[0] == ' ' {
          assert Collapsed(a + t) == u + Collapsed(t);
        } else {
          assert Opening(" " + u) && " " + rest == " " + u + Collapsed(t);
        }
      } else {
        assert |a| > 1;
        if u == "" {
          CollapsedSpace(a[1..], t);
        } else {
          assert Opening([a[0]] + u) && [a[0]] + rest == [a[0]] + u + Collapsed(t);
        }
      }
    }
  }

  /** Behind a space the tail does not come first. */
  lemma {:induction false} CollapsedSpace(a: string, t: string)
    requires a != "" && IsSpace(a[|a| - 1]) && t != "" && !IsSpace(t[0])
    ensures |Collapsed(a + t)| > |Collapsed(t)|
  {
    assert (a + t)[1..] == a[1..] + t;
    if |a| > 1 {
      assert a[1..][|a| - 2] == a[|a| - 1];
      CollapsedSpace(a[1..], t);
    } else {
      assert a + t == [a[0]] + t && a[1..] + t == t;
      assert Collapsed(t)[0] == t[0];
    }
  }

  lemma {:induction false} RightStripDrops(t: string, w: string)
    requires t != "" && !IsSpace(t[|t| - 1]) && AllSpace(w)
    ensures RightStrip(t + w) == t
  {
    if w != "" {
      assert (t + w)[..|t + w| - 1] == t + w[..|w| - 1];
      RightStripDrops(t, w[..|w| - 1]);
    } else {
      assert t + w == t;
    }
  }

  lemma {:induction false} StripTail(u: string, t: string, w: string)
    requires t != "" && !IsSpace(t[0]) && !IsSpace(t[|t| - 1]) && AllSpace(w)
    ensures exists m :: 0 <= m <= |u| && Strip(u + t + w) == u[m..] + t
  {
    if u == "" {
      assert u + t + w == t + w && ""[0..] + t == t;
      RightStripDrops(t, w);
    } else if IsSpace(u[0]) {
      assert (u + t + w)[1..] == u[1..] + t + w;
      StripTail(u[1..], t, w);
      var m :| 0 <= m <= |u| - 1 && Strip(u[1..] + t + w) == u[1..][m..] + t;
      assert u[1..][m..] == u[m + 1..];
    } else {
      RightStripDrops(u + t, w);
      assert u[0..] == u;
    }
  }

  /** What the punctuation fold makes of a name with a spaced article at its end. */
  lemma FoldedArticle(a: string, post: string)
    requires (a == "" || IsSpace(a[|a| - 1])) && AllSpace(post) && '&' !in post && '-' !in post
    ensures exists u :: Opening(u) && PunctFold(a + ", the" + post) == u + ", the"
  {
    hide Strip, PunctFold;
    var s := a + ", the" + post;
    var a2 := Replaced(Replaced(a, '&', " and "), '-', " ");
    ReplacedTail(a);
    TailReplaced(a, post);
    assert Replaced(Replaced(s, '&', " and "), '-', " ") == a2 + (", the" + post);
    CollapsedTail(a2, ", the" + post);
    var u :| Opening(u) && Collapsed(a2 + (", the" + post)) == u + Collapsed(", the" + post);
    ArticleCollapsed(post);
    var w := Collapsed(post);
    assert u + (", the" + w) == u + ", the" + w;
    StripTail(u, ", the", w);
    var m :| 0 <= m <= |u| && Strip(u + ", the" + w) == u[m..] + ", the";
    assert Opening(u[m..]);
    PunctFoldIs(s);
  }

  lemma PunctFoldIs(s: string)
    ensures PunctFold(s) == Strip(Collapsed(Replaced(Replaced(s, '&', " and "), '-', " ")))
  {
    hide Strip, Collapsed, Replaced;
  }

  lemma ReplacedTail(a: string)
    requires a == "" || IsSpace(a[|a| - 1])
    ensures var a2 := Replaced(Replaced(a, '&', " and "), '-', " "); a2 == "" || IsSpace(a2[|a2| - 1])
  {
    if a != "" {
      var n := |a| - 1;
      var c := a[n];
      assert a == a[..n] + [c];
      ReplacedAppend(a[..n], [c], '&', " and ");
      Unreplaced([c], '&', " and ");
      ReplacedAppend(Replaced(a[..n], '&', " and "), [c], '-', " ");
      Unreplaced([c], '-', " ");
    }
  }

  lemma TailReplaced(a: string, post: string)
    requires '&' !in post && '-' !in post
    ensures Replaced(Replaced(a + ", the" + post, '&', " and "), '-', " ") ==
            Replaced(Replaced(a, '&', " and "), '-', " ") + (", the" + post)
  {
    var t := ", the" + post;
    assert a + ", the" + post == a + t;
    ReplacedAppend(a, t, '&', " and ");
    Unreplaced(t, '&', " and ");
    ReplacedAppend(Replaced(a, '&', " and "), t, '-', " ");
    Unreplaced(t, '-', " ");
  }

  lemma ArticleCollapsed(post: string)
    requires AllSpace(post)
    ensures Collapsed(", the" + post) == ", the" + Collapsed(post) && AllSpace(Collapsed(post))
  {
    var the := "the" + post;
    assert the[1..] == "he" + post && ("he" + post)[1..] == "e" + post && ("e" + post)[1..] == post;
    assert Collapsed("e" + post) == "e" + Collapsed(post);
    assert Collapsed("he" + post) == "h" + Collapsed("e" + post);
    assert Collapsed(the) == "the" + Collapsed(post);
    assert (" " + the)[1..] == the && Collapsed(" " + the) == " " + Collapsed(the);
    assert ("," + (" " + the))[1..] == " " + the && ", the" + post == "," + (" " + the);
    SpacesCollapse(post);
  }

  lemma {:induction false} SpacesCollapse(s: string)
    requires AllSpace(s)
    ensures AllSpace(Collapsed(s))
  {
    if s != "" { SpacesCollapse(s[1..]); }
  }

  lemma {:induction false} StripIs(s: string)
    ensures exists pre, post :: AllSpace(pre) && AllSpace(post) && s == pre + Strip(s) + post
  {
    if s != "" && IsSpace(s[0]) {
      StripIs(s[1..]);
      var pre, post :| AllSpace(pre) && AllSpace(post) && s[1..] == pre + Strip(s[1..]) + post;
      assert AllSpace([s[0]] + pre) && s == [s[0]] + pre + Strip(s) + post;
    } else {
      RightStripIs(s);
      var t :| AllSpace(t) && s == RightStrip(s) + t;
      assert AllSpace("") && s == "" + Strip(s) + t;
    }
  }

  lemma NameEnds(artist: string) returns (a: string, post: string)
    requires SpacedArticle(artist)
    ensures Fold(artist) == a + ", the" + post && AllSpace(post) && (a == "" || IsSpace(a[|a| - 1]))
  {
    hide Strip, Fold;
    var base := Strip(Fold(artist));
    StripIs(Fold(artist));
    var pre: string;
    pre, post :| AllSpace(pre) && AllSpace(post) && Fold(artist) == pre + base + post;
    var b := base[..|base| - 5];
    assert base == b + ", the";
    a := pre + b;
    assert pre + base + post == a + ", the" + post;
    if a != "" && b == "" { assert a == pre; }
  }

  lemma CountSuffix(s: string, m: nat, c: char)
    requires m <= |s|
    ensures Count(s, c) == Count(s[..m], c) + Count(s[m..], c)
  {
    assert s == s[..m] + s[m..];
    CountAppend(s[..m], s[m..], c);
  }

  lemma CountArticle()
    ensures Count(", the", ',') == 1 && Count("the ", ',') == 0 && Count("the ", 't') == 1 && Count(", the", 't') == 1
  {
    CountNone("the ", ',');
    CountNone("he ", 't');
    CountNone(" the", ',');
    assert ", the"[1..] == " the" && "the "[1..] == "he " && " the"[1..] == "the" && "the"[1..] == "he";
    CountNone("he", 't');
    assert Count("the", 't') == 1 && Count(" the", 't') == 1;
  }

  lemma StemShape(artist: string)
    requires SpacedArticle(artist)
    ensures Strip(Fold(artist)) == Bare(artist) + ", the" && Stem(artist) + " " == "the " + Bare(artist)
  {
    hide Strip, Fold;
    var base, b := Strip(Fold(artist)), Bare(artist);
    var g := "the " + b;
    if b == "" {
      assert g[|g| - 1] == ' ';
    } else {
      assert g[|g| - 1] == b[|b| - 1] == base[|base| - 6];
    }
  }

  /** What the stem and the name it comes from have in common. */
  lemma StemIs(artist: string)
    requires SpacedArticle(artist)
    ensures Strip(Fold(artist)) == Bare(artist) + ", the" && Stem(artist) + " " == "the " + Bare(artist)
    ensures Count(Strip(Fold(artist)), ',') == Count(Stem(artist), ',') + 1
    ensures Count(Stem(artist), 't') == Count(Bare(artist), 't') + 1
  {
    hide Strip, Fold, Bare, Stem, Count, SpacedArticle;
    StemShape(artist);
    CountArticle();
    CountAppend(Bare(artist), ", the", ',');
    CountAppend("the ", Bare(artist), ',');
    CountAppend("the ", Bare(artist), 't');
    CountAppend(Stem(artist), " ", ',');
    CountAppend(Stem(artist), " ", 't');
    CountNone(" ", ',');
    CountNone(" ", 't');
  }

  lemma WantedKey(artist: string)
    requires SpacedArticle(artist)
    ensures var w, c := BareKey(artist), Count(Stem(artist), ',');
            Count(w, ',') == c + 1 || (Count(w, ',') == c && w != "" && w[|w| - 1] == ' ')
  {
    hide Strip, Fold, PunctFold, Stem, Count;
    var a, post := NameEnds(artist);
    FoldedArticle(a, post);
    var p := PunctFold(Fold(artist));
    var u :| Opening(u) && p == u + ", the";
    CommasKept(Fold(artist));
    CountStripped(Fold(artist), ',');
    StemIs(artist);
    CountArticle();
    CountAppend(u, ", the", ',');
    if StartsAt(p, 0, "the ") && |p| > 4 {
      assert p[0..4] == p[..4] == "the ";
      CountSuffix(p, 4, ',');
    } else if |p| > 5 {
      assert EndsWith(p, ", the") && p[..|p| - 5] == u;
    }
  }

  /** Text the fold leaves alone. */
  predicate Folded(s: string) { forall i :: 0 <= i < |s| ==> !IsUpper(s[i]) && !IsApostrophe(s[i]) }

  lemma HeadKey(k: string)
    requires Folded(k)
    ensures var w, c := BareKey(k + "'"), Count(k, ',');
            Count(w, ',') < c || (Count(w, ',') == c && (w != "" ==> w[|w| - 1] != ' '))
  {
    hide Strip, Fold, PunctFold, Count;
    FoldAppend(k, "'");
    FoldSame(k);
    ApostropheFolds();
    assert k + "" == k;
    var p := PunctFold(k);
    CommasKept(k);
    PunctFoldIs(k);
    StripEnds(Collapsed(Replaced(Replaced(k, '&', " and "), '-', " ")));
    CountArticle();
    if StartsAt(p, 0, "the ") && |p| > 4 {
      assert p[0..4] == p[..4] == "the ";
      CountSuffix(p, 4, ',');
    } else if EndsWith(p, ", the") && |p| > 5 {
      CountSuffix(p, |p| - 5, ',');
    }
  }

  lemma ApostropheFolds()
    ensures Fold("'") == ""
  {
    assert "'"[1..] == "";
  }

  lemma {:induction false} FoldIsFolded(s: string)
    ensures Folded(Fold(s))
  {
    if s != "" { FoldIsFolded(s[1..]); }
  }

  predicate Plain(s: string) { SepFree(s) && Unopened(s) && Folded(s) }

  lemma BaseIsPlain(artist: string)
    requires SepFree(artist) && SpacedArticle(artist)
    ensures Plain(Strip(Fold(artist)))
  {
    hide Strip, Fold, EndsWith;
    var base := Strip(Fold(artist));
    FoldIsFolded(artist);
    FoldSepFree(artist);
    StripFree(Fold(artist));
    StripIs(Fold(artist));
    var pre, post :| AllSpace(pre) && AllSpace(post) && Fold(artist) == pre + base + post;
    assert forall i :: 0 <= i < |base| ==> base[i] == Fold(artist)[|pre| + i];
  }

  /** So is the stem, which starts with the article. */
  lemma StemIsPlain(artist: string)
    requires Findable(artist) && SpacedArticle(artist)
    ensures var k := Stem(artist); Plain(k) && |k| >= 3 && k[..3] == "the" && (|k| > 3 ==> k[3] == ' ')
  {
    BaseIsPlain(artist);
    StemShape(artist);
    hide Strip, Fold, BareKey, Stem, Bare, SpacedArticle;
    StemFrom(Strip(Fold(artist)), Bare(artist), Stem(artist));
  }

  lemma StemFrom(base: string, b: string, k: string)
    requires base == b + ", the" && k + " " == "the " + b && Plain(base)
    ensures Plain(k) && |k| >= 3 && k[..3] == "the" && (|k| > 3 ==> k[3] == ' ')
  {
    var g := "the " + b;
    assert |k| + 1 == |g|;
    assert forall i :: 0 <= i < |k| ==> k[i] == (k + " ")[i] == g[i];
    assert forall i :: 4 <= i < |k| ==> k[i] == b[i - 4] == base[i - 4];
    assert k[..3] == g[..3] == "the";
    assert Plain("the ");
    assert forall i :: 0 <= i < 4 && i < |k| ==> k[i] == "the "[i];
  }

  // ----- The title alone: no artist is found in it -----

  lemma UnspacedParts(k: string, y: string)
    ensures var s := Unspaced(k, y);
            && |s| == |k| + 2 + |y| && s[|k|] == '\'' && s[|k| + 1] == EN_DASH
            && (forall i :: 0 <= i < |k| ==> s[i] == k[i]) && (forall i :: 0 <= i < |y| ==> s[|k| + 2 + i] == y[i])
            && s[..|k| + 1] == k + "'" && s[|k| + 2..] == y
  {
  }

  lemma UnspacedSeps(k: string, y: string)
    requires SepFree(k) && PlainWord(y)
    ensures var s := Unspaced(k, y);
            (forall i :: 0 <= i <= |k| ==> SepEnd(s, i) == None) && SepEnd(s, |k| + 1) == Some(|k| + 2)
  {
    hide Unspaced, PlainWord;
    var s := Unspaced(k, y);
    UnspacedParts(k, y);
    YIsFree(y);
    forall i | 0 <= i <= |k| ensures SepEnd(s, i) == None {
      var j := Skip(s, i);
      assert j <= |k|;
    }
    SkipIs(s, |k| + 1, |k| + 1);
    assert s[|k| + 2] == y[0];
    SkipIs(s, |k| + 2, |k| + 2);
  }

  lemma UnspacedFolds(k: string, y: string)
    requires Folded(k) && PlainWord(y)
    ensures Fold(Unspaced(k, y)) == k + [EN_DASH] + y
  {
    hide Fold;
    FoldAppend(k + "'" + [EN_DASH], y);
    FoldAppend(k + "'", [EN_DASH]);
    FoldAppend(k, "'");
    FoldSame(k);
    FoldSame(y);
    FoldSame([EN_DASH]);
    ApostropheFolds();
    assert k + "" == k;
  }

  lemma {:induction false} NothingBefore(s: string, wanted: string, i: nat, n: nat)
    requires i <= n < |s| && forall j :: 0 <= j < n ==> SepEnd(s, j) == None
    ensures Boundary(s, wanted, i) == Boundary(s, wanted, n)
    decreases n - i
  {
    if i < n { NothingBefore(s, wanted, i + 1, n); }
  }

  lemma NoBoundaryFound(artist: string, y: string)
    requires Findable(artist) && SpacedArticle(artist) && PlainWord(y)
    ensures Boundary(Unspaced(Stem(artist), y), BareKey(artist), 0) == None
  {
    hide BareKey, SepEnd, Stem, Findable, Count, HasInk;
    var k := Stem(artist);
    var s := Unspaced(k, y);
    StemIsPlain(artist);
    UnspacedSeps(k, y);
    UnspacedParts(k, y);
    HeadKey(k);
    WantedKey(artist);
    NothingBefore(s, BareKey(artist), 0, |k| + 1);
    YIsFree(y);
    assert k + "'" + [EN_DASH] + y == s && |k + "'" + [EN_DASH]| == |k| + 2;
    NoBoundary(k + "'" + [EN_DASH], y, BareKey(artist), |k| + 2);
  }

  lemma YIsFree(y: string)
    requires PlainWord(y)
    ensures y != "" && SepFree(y) && !IsSpace(y[0]) && AllAlnum(y) && Unopened(y)
  {
  }

  /** In text with one separator, what leads up to it is the spelling and spaces. */
  lemma OnlySeparator(x: string, form: string, j: nat, at: nat)
    requires LeadsBy(x, form, j) && at < |x| && forall i :: 0 <= i < |x| && IsSep(x[i]) ==> i == at
    ensures j == at && |form| <= at && x[..|form|] == form && AllSpace(x[|form|..at])
  {
  }

  lemma LedCount(x: string, form: string, j: nat, at: nat, c: char)
    requires LeadsBy(x, form, j) && at < |x| && !IsSpace(c)
    requires forall i :: 0 <= i < |x| && IsSep(x[i]) ==> i == at
    ensures |form| <= at && Count(x[..at], c) == Count(form, c)
  {
    OnlySeparator(x, form, j, at);
    CountSuffix(x[..at], |form|, c);
    assert x[..at][..|form|] == form && x[..at][|form|..] == x[|form|..at];
    CountSpaces(x[|form|..at], c);
  }

  /** The four spellings, by what they can be told from the stem by. */
  lemma SpellingsDiffer(artist: string, f: string)
    requires SpacedArticle(artist) && f in Forms(artist)
    ensures f == Article(artist) || Count(f, ',') == Count(Stem(artist), ',') + 1 || Count(f, 't') + 1 == Count(Stem(artist), 't')
  {
    hide Strip, Fold, Count, Stem;
    StemIs(artist);
    var base := Strip(Fold(artist));
    if f == base[4..] && StartsAt(base, 0, "the ") {
      assert base[0..4] == base[..4] == "the ";
      CountSuffix(base, 4, ',');
      CountArticle();
    }
  }

  /** A stem, what stands for the dash behind it, and a word. */
  lemma OneDash(k: string, before: string, dash: char, after: string, y: string)
    requires SepFree(k) && |k| >= 3 && k[..3] == "the" && IsSep(dash) && AllSpace(before) && AllSpace(after) && PlainWord(y)
    ensures var x := k + before + [dash] + after + y;
            && x[0] == 't' && x[..|k + before|] == k + before
            && forall i :: 0 <= i < |x| && IsSep(x[i]) ==> i == |k + before|
  {
    var x := k + before + [dash] + after + y;
    var at := |k + before|;
    YIsFree(y);
    assert x[0] == k[0] == k[..3][0];
    forall i | 0 <= i < |x| && i != at ensures !IsSep(x[i]) {
      if i < |k| { assert x[i] == k[i]; }
      else if i < at { assert x[i] == before[i - |k|]; }
      else if i <= at + |after| { assert x[i] == after[i - at - 1]; }
      else { assert x[i] == y[i - at - 1 - |after|]; }
    }
  }

  lemma UnspacedIsNotLed(artist: string, y: string, f: string)
    requires Findable(artist) && SpacedArticle(artist) && PlainWord(y) && f in Forms(artist)
    ensures !Leads(Fold(Unspaced(Stem(artist), y)), f)
  {
    hide Forms, BareKey, Fold, Strip, Count, Leads, LeadsBy, Stem, Plain, PlainWord;
    var k := Stem(artist);
    var x := k + "" + [EN_DASH] + "" + y;
    StemIsPlain(artist);
    PlainIs(k);
    UnspacedFolds(k, y);
    assert x == k + [EN_DASH] + y && k + "" == k;
    OneDash(k, "", EN_DASH, "", y);
    SpellingsDiffer(artist, f);
    ArticleIsLonger(artist);
    if Leads(x, f) {
      var j := LeadsAt(x, f);
      LedCount(x, f, j, |k|, ',');
      LedCount(x, f, j, |k|, 't');
    }
  }

  lemma PlainIs(k: string)
    ensures Plain(k) <==> SepFree(k) && Unopened(k) && Folded(k)
  {
  }

  lemma ArticleIsLonger(artist: string)
    requires SpacedArticle(artist)
    ensures Article(artist) == Stem(artist) + " "
  {
    StemShape(artist);
  }

  lemma UnspacedHasNoArtist(artist: string, y: string)
    requires Findable(artist) && SpacedArticle(artist) && PlainWord(y)
    ensures SplitFront(Unspaced(Stem(artist), y), Some(artist)) == NoArtist
    ensures PlainTitle(Unspaced(Stem(artist), y))
  {
    hide Forms, Stem, BareKey, Fold, Strip, Boundary, Leads;
    var k := Stem(artist);
    NoBoundaryFound(artist, y);
    forall f | f in Forms(artist) ensures !Leads(Fold(Unspaced(k, y)), f) { UnspacedIsNotLed(artist, y, f); }
    StemIsPlain(artist);
    YIsFree(y);
    UnspacedParts(k, y);
    assert Unspaced(k, y)[0] == k[0] == k[..3][0] == 't';
  }

  // ----- What is rebuilt of it, and its two keys -----

  lemma UnspacedSegments(k: string, y: string)
    requires SepFree(k) && PlainWord(y)
    ensures Segments(Unspaced(k, y), 0, 0) == [k + "'", y]
  {
    hide SegmentEnd, PlainWord, Segments, Unspaced;
    var s := Unspaced(k, y);
    var n := |k| + 1;
    UnspacedParts(k, y);
    UnspacedSegmentEnds(k, y);
    YIsFree(y);
    assert forall i :: n + 1 <= i < |s| ==> s[i] == y[i - n - 1];
    Unsplit(s, n + 1, n + 1);
    SegmentsFrom(s, 0, n);
    assert s[0..n] == k + "'" && s[n + 1..] == y;
    assert [k + "'"] + [y] == [k + "'", y];
  }

  lemma UnspacedSegmentEnds(k: string, y: string)
    requires SepFree(k) && PlainWord(y)
    ensures var s := Unspaced(k, y);
            (forall i :: 0 <= i <= |k| ==> SegmentEnd(s, i) == None) && SegmentEnd(s, |k| + 1) == Some(|k| + 2)
  {
    hide Unspaced, PlainWord;
    var s := Unspaced(k, y);
    UnspacedParts(k, y);
    YIsFree(y);
    forall i | 0 <= i <= |k| ensures SegmentEnd(s, i) == None {
      var j := Skip(s, i);
      assert j <= |k|;
      if j < |k| { assert s[j] == k[j] && !IsSep(k[j]); }
    }
    SkipIs(s, |k| + 1, |k| + 1);
    assert s[|k| + 2] == y[0];
    SkipIs(s, |k| + 2, |k| + 2);
  }

  lemma {:induction false} SegmentsFrom(s: string, i: nat, n: nat)
    requires i <= n < |s| && SegmentEnd(s, n).Some? && forall j :: i <= j < n ==> SegmentEnd(s, j) == None
    ensures Segments(s, 0, i) == [s[0..n]] + Segments(s, SegmentEnd(s, n).value, SegmentEnd(s, n).value)
    decreases n - i
  {
    hide SegmentEnd;
    if i < n { SegmentsFrom(s, i + 1, n); }
  }

  lemma NoVariant(v: Vocabulary, y: string)
    requires OwnKey(v, y)
    ensures !IsVariant(v, y)
  {
    hide Cleaned;
    FoldSame(y);
    LoneWord(y);
    PhrasesOpen();
    CleanedNothing(PHRASES + [BOX_SET], y);
    assert y in [y];
  }

  lemma TwoRejoined(a: string, b: string)
    requires HasInk(a) && HasInk(b)
    ensures Rejoined([a, b]) == a + " - " + b
  {
    var parts := [a, b];
    assert parts[..1] == [a] && [a][..0] == [] && parts[1] == b;
    assert a in [a];
    assert Rejoined([a]) == a;
  }

  lemma StripSame(s: string)
    requires s != "" && !IsSpace(s[0]) && !IsSpace(s[|s| - 1])
    ensures Strip(s) == s
  {
  }

  /** The join gives the dash the space the title does not have. */
  function Spaced(k: string, y: string): string { k + "'" + " - " + y }

  lemma UnspacedRebuilt(v: Vocabulary, k: string, y: string)
    requires Plain(k) && |k| >= 3 && k[..3] == "the" && OwnKey(v, y)
    ensures Rebuilt(v, Unspaced(k, y)) == Spaced(k, y)
  {
    hide IsVariant, Segments, Strip, Rejoined, PlainWord, HasInk;
    UnspacedSegments(k, y);
    NoVariant(v, y);
    var parts := [k + "'", y];
    assert parts[1] == y && |parts| == 2;
    assert Trimmed(v, parts) == parts;
    YIsFree(y);
    assert (k + "'")[0] == k[..3][0] == 't';
    InkSomewhere(k + "'", 0);
    InkSomewhere(y, 0);
    TwoRejoined(k + "'", y);
    var s := Spaced(k, y);
    assert s[0] == (k + "'")[0] && s[|s| - 1] == y[|y| - 1];
    StripSame(s);
  }

  lemma SpacedFolds(k: string, y: string)
    requires Folded(k) && PlainWord(y)
    ensures Fold(Spaced(k, y)) == k + " " + ("- " + y)
  {
    hide Fold;
    FoldAppend(k + "'" + " - ", y);
    FoldAppend(k + "'", " - ");
    FoldAppend(k, "'");
    FoldSame(k);
    FoldSame(y);
    FoldSame(" - ");
    ApostropheFolds();
    assert k + "" == k && k + " - " + y == k + " " + ("- " + y);
  }

  lemma BaseDoesNotLead(artist: string, y: string)
    requires Findable(artist) && SpacedArticle(artist) && PlainWord(y)
    ensures !Leads(Stem(artist) + " " + ("- " + y), Strip(Fold(artist)))
  {
    hide Forms, BareKey, Fold, Strip, Count, Leads, LeadsBy, Stem, Bare, Plain, PlainWord;
    var k, base := Stem(artist), Strip(Fold(artist));
    var x := k + " " + ['-'] + " " + y;
    StemIsPlain(artist);
    PlainIs(k);
    StemIs(artist);
    assert x == k + " " + ("- " + y);
    OneDash(k, " ", '-', " ", y);
    CountAppend(k, " ", ',');
    CountNone(" ", ',');
    if Leads(x, base) {
      var j := LeadsAt(x, base);
      LedCount(x, base, j, |k + " "|, ',');
    }
  }

  /** With the space there, the article's spelling leads and is stripped. */
  lemma ArticleIsStripped(artist: string, y: string)
    requires Findable(artist) && SpacedArticle(artist) && PlainWord(y)
    ensures StripForms(Stem(artist) + " " + ("- " + y), Forms(artist)) == y
  {
    hide BareKey, Fold, Strip, Count, Stem, PlainWord, Leads, LeadEnd;
    var g := Article(artist);
    var x := g + ("- " + y);
    ArticleIsLonger(artist);
    StemIsPlain(artist);
    BaseDoesNotLead(artist, y);
    assert g[0] == 't';
    LedByArticle(x, g, y);
    var forms := Forms(artist);
    assert forms[0] == Strip(Fold(artist)) && forms[1..][0] == forms[1] == g;
  }

  lemma LedByArticle(x: string, g: string, y: string)
    requires x == g + ("- " + y) && g != "" && !IsSpace(g[0]) && PlainWord(y)
    ensures Leads(x, g) && LeadEnd(x, g) == Some(|g| + 2) && x[|g| + 2..] == y
  {
    SkipIs(x, 0, 0);
    assert x[0..0 + |g|] == g && x[|g|] == '-' && x[|g| + 1] == ' ' && x[|g| + 2] == y[0];
    SkipIs(x, |g|, |g|);
    SkipIs(x, |g| + 1, |g| + 2);
    assert x[|g| + 2..] == y;
    InkSomewhere(y, 0);
  }

  lemma {:induction false} AllSurvive(words: seq<string>, noise: set<string>)
    requires forall w :: w in words ==> w !in noise
    ensures Surviving(words, noise) == words
  {
    if words != [] {
      assert words[0] in words;
      AllSurvive(words[1..], noise);
      assert words == [words[0]] + words[1..];
    }
  }

  /** Plain words with no noise among them are the tokens. */
  lemma TokensOf(v: Vocabulary, title: string, artist: Option<string>, s: string, words: seq<string>)
    requires WithoutArtist(Fold(title), artist) == s && Words(s) == words != []
    requires forall i :: 0 <= i < |s| ==> s[i] !in PHRASE_STARTS && s[i] !in PREFIX_STARTS && s[i] != '&'
    requires forall w :: w in words ==> w !in v.noise && w !in v.nameable
    ensures Tokens(v, title, artist, true) == words
  {
    hide Words, Cleaned, Sub, Fold, WithoutArtist;
    HyphenatedOpens();
    forall j: nat | j < |s| ensures Match(HYPHENATED, s, j) == None { NoMatch(HYPHENATED, PREFIX_STARTS, s, j); }
    SubNothing(HYPHENATED, true, s, 0);
    assert s[0..] == s;
    Unreplaced(s, '&', " and ");
    PhrasesOpen();
    CleanedNothing(PHRASES, s);
    AllSurvive(words, v.Noise(true));
    assert words[0] in words;
  }

  // ----- The article survives where it is not stripped -----

  predicate StartsThe(s: string) { |s| >= 4 && s[..4] == "the " }

  lemma SubThe(p: Regex, keep: bool, chars: set<char>, s: string)
    requires Opens(p, chars) && StartsThe(s) && 't' !in chars && 'h' !in chars && 'e' !in chars && ' ' !in chars
    ensures StartsThe(Sub(p, keep, s, 0))
  {
    assert s[0] == s[..4][0] && s[1] == s[..4][1] && s[2] == s[..4][2] && s[3] == s[..4][3];
    hide Opens, Match;
    NoMatch(p, chars, s, 0);
    NoMatch(p, chars, s, 1);
    NoMatch(p, chars, s, 2);
    NoMatch(p, chars, s, 3);
    var rest := Sub(p, keep, s, 4);
    assert Sub(p, keep, s, 3) == " " + rest;
    assert Sub(p, keep, s, 2) == "e" + Sub(p, keep, s, 3);
    assert Sub(p, keep, s, 1) == "h" + Sub(p, keep, s, 2);
    assert Sub(p, keep, s, 0) == "t" + Sub(p, keep, s, 1);
    assert "t" + ("h" + ("e" + (" " + rest))) == "the " + rest;
  }

  lemma {:induction false} CleanedThe(phrases: seq<Regex>, s: string)
    requires AllOpen(phrases) && StartsThe(s)
    ensures StartsThe(Cleaned(phrases, s))
  {
    hide StartsThe, Sub, Opens, Avoids;
    if phrases != [] {
      assert phrases[0] in phrases;
      TheOpensNothing();
      SubThe(phrases[0], false, PHRASE_STARTS, s);
      CleanedThe(phrases[1..], Sub(phrases[0], false, s, 0));
    }
  }

  lemma TheOpensNothing()
    ensures forall c :: c in "the " ==> c !in PHRASE_STARTS && c !in PREFIX_STARTS
    ensures 't' !in PHRASE_STARTS && 'h' !in PHRASE_STARTS && 'e' !in PHRASE_STARTS && ' ' !in PHRASE_STARTS
    ensures 't' !in PREFIX_STARTS && 'h' !in PREFIX_STARTS && 'e' !in PREFIX_STARTS && ' ' !in PREFIX_STARTS
  {
  }

  lemma ReplacedThe(s: string)
    requires StartsThe(s)
    ensures StartsThe(Replaced(s, '&', " and "))
  {
    assert s == "the " + s[4..];
    ReplacedAppend("the ", s[4..], '&', " and ");
    Unreplaced("the ", '&', " and ");
  }

  lemma {:induction false} ScanGrows(s: string, t: string)
    ensures Scan(s).words <= Scan(s + t).words
  {
    if t == "" {
      assert s + t == s;
    } else {
      var u := t[..|t| - 1];
      ScanGrows(s, u);
      assert (s + t)[..|s + t| - 1] == s + u;
    }
  }

  lemma WordsThe(s: string)
    requires StartsThe(s)
    ensures "the" in Words(s)
  {
    LoneWord("the");
    WordsThen("the", ' ');
    assert "the" + [' '] == "the " && s == "the " + s[4..];
    assert Scan("the ").words == ["the"];
    ScanGrows("the ", s[4..]);
    assert Scan(s).words[0] == "the";
  }

  lemma TheIsAToken(v: Vocabulary, title: string)
    requires StartsThe(Fold(title)) && "the" !in v.noise && "the" !in v.nameable
    ensures "the" in Tokens(v, title, None, true) && AreWords(Tokens(v, title, None, true))
  {
    hide StartsThe, Sub, Cleaned, Replaced, Words, Fold, Surviving, PHRASE_STARTS, PREFIX_STARTS;
    TheOpensNothing();
    HyphenatedOpens();
    SubThe(HYPHENATED, true, PREFIX_STARTS, Fold(title));
    ReplacedThe(Sub(HYPHENATED, true, Fold(title), 0));
    PhrasesOpen();
    var cleaned := Cleaned(PHRASES, Prepared(title, None, true));
    CleanedThe(PHRASES, Prepared(title, None, true));
    WordsThe(cleaned);
    ScanIsWords(cleaned);
  }

  // ----- Exactly which artists -----

  lemma SpacedStartsThe(k: string, rest: string)
    requires |k| >= 3 && k[..3] == "the" && (|k| > 3 ==> k[3] == ' ')
    ensures StartsThe(k + " " + rest)
  {
    var s := k + " " + rest;
    assert s[0] == k[..3][0] && s[1] == k[..3][1] && s[2] == k[..3][2] && s[3] == ' ';
    assert s[..4] == "the ";
  }

  /** The title's own key is the word alone. */
  lemma AloneIsTheWord(v: Vocabulary, artist: string, y: string)
    requires Findable(artist) && SpacedArticle(artist) && OwnKey(v, y)
    ensures RecordKey(v, Unspaced(Stem(artist), y), Some(artist)) == Joined([y])
  {
    hide Forms, BareKey, Fold, Strip, SplitFront, Unfenced, Rebuilt, StripForms, Joined, RecordKey, Tokens, Stem, Words, Plain;
    var k := Stem(artist);
    StemIsPlain(artist);
    PlainIs(k);
    UnspacedHasNoArtist(artist, y);
    UnspacedRebuilt(v, k, y);
    Unbracketed(v, Unspaced(k, y), 0);
    assert Unspaced(k, y)[0..] == Unspaced(k, y);
    SpacedFolds(k, y);
    ArticleIsStripped(artist, y);
    YIsFree(y);
    LoneWord(y);
    assert WithoutArtist(Fold(Spaced(k, y)), Some(artist)) == y;
    assert forall w :: w in [y] ==> w == y;
    assert y[|y| - 1] != '&' && forall i :: 0 <= i < |y| ==> y[i] != '&';
    TokensOf(v, Spaced(k, y), Some(artist), y, [y]);
    KeyWhenNoArtist(v, Unspaced(k, y), artist);
  }

  lemma KeyWhenNoArtist(v: Vocabulary, title: string, artist: string)
    requires SplitFront(title, Some(artist)) == NoArtist && Unfenced(v, title, 0) == title && Rebuilt(v, title) != ""
    ensures RecordKey(v, title, Some(artist)) == Joined(Tokens(v, Rebuilt(v, title), Some(artist), true))
  {
    hide SplitFront, Rebuilt, Unfenced, Tokens, Joined;
  }

  lemma KeyWhenFronted(v: Vocabulary, artist: string, title: string)
    requires Findable(artist) && PlainTitle(title)
    ensures RecordKey(v, Fronted(artist, title), Some(artist)) == Joined(Tokens(v, Rebuilt(v, title), None, true))
  {
    hide SplitFront, Rebuilt, BareKey, Forms, Tokens, Joined;
    FrontIsFound(artist, title);
    Unbracketed(v, title, 0);
    assert title[0..] == title;
    RebuiltHead(v, title);
  }

  /** With the artist in front of it the article is one of the words. */
  lemma SpacedArticleChangesTheRecord(v: Vocabulary, artist: string, y: string)
    requires Findable(artist) && SpacedArticle(artist) && OwnKey(v, y) && "the" !in v.noise && "the" !in v.nameable
    ensures var title := Unspaced(Stem(artist), y);
            && PlainTitle(title) && SplitFront(title, Some(artist)) == NoArtist
            && RecordKey(v, Fronted(artist, title), Some(artist)) != RecordKey(v, title, Some(artist))
  {
    hide Forms, BareKey, Fold, Strip, SplitFront, Unfenced, Rebuilt, Joined, RecordKey, Tokens, Stem, Plain, PlainTitle;
    var k := Stem(artist);
    UnspacedHasNoArtist(artist, y);
    AloneIsTheWord(v, artist, y);
    KeyWhenFronted(v, artist, Unspaced(k, y));
    StemIsPlain(artist);
    PlainIs(k);
    UnspacedRebuilt(v, k, y);
    SpacedFolds(k, y);
    SpacedStartsThe(k, "- " + y);
    TheIsAToken(v, Spaced(k, y));
    YIsFree(y);
    assert AreWords([y]);
    JoinedWords([y]);
    JoinedWords(Tokens(v, Spaced(k, y), None, true));
    assert "the" !in [y];
  }

  ghost predicate EveryTitleKeepsTheRecord(v: Vocabulary, artist: string) {
    forall title :: PlainTitle(title) && SplitFront(title, Some(artist)) == NoArtist ==>
      RecordKey(v, Fronted(artist, title), Some(artist)) == RecordKey(v, title, Some(artist))
  }

  /** An artist that can be searched for can be written in front of every bracket-free title
      that does not lead with it, without changing the record, exactly when its folded name
      does not end in ", the" behind a plain space or nothing, brackets aside. */
  lemma EveryTitleKeepsTheRecordIff(v: Vocabulary, artist: string, y: string)
    requires Findable(artist) && OwnKey(v, y) && "the" !in v.noise && "the" !in v.nameable
    ensures EveryTitleKeepsTheRecord(v, artist) <==> !SpacedArticle(artist)
  {
    hide Findable, PlainTitle, SplitFront, RecordKey, Fronted, SpacedArticle;
    if SpacedArticle(artist) {
      SpacedArticleChangesTheRecord(v, artist, y);
    } else {
      forall title | PlainTitle(title) && SplitFront(title, Some(artist)) == NoArtist
        ensures RecordKey(v, Fronted(artist, title), Some(artist)) == RecordKey(v, title, Some(artist))
      {
        ArtistInFrontNeverChangesTheRecord(v, artist, title);
      }
    }
  }

  // ----- The module's own vocabulary, and one such artist -----

  lemma NothingIsY()
    ensures "y" !in Media() && "y" !in Pressings() && "y" !in Packaging() && "y" !in Nameable()
    ensures "the" !in Media() && "the" !in Pressings() && "the" !in Packaging() && "the" !in Nameable()
  {
  }

  lemma NoVariantIsY()
    ensures "y" !in Colours() && "y" !in Metals() && "y" !in Gems() && "y" !in Finishes() && "y" !in Effects()
    ensures "y" !in Editions() && "y" !in Extras()
  {
  }

  lemma StoreOwnKey()
    ensures var v := StoreVocabulary(); OwnKey(v, "y") && "the" !in v.noise && "the" !in v.nameable
  {
    NothingIsY();
    NoVariantIsY();
    assert PlainWord("y");
    hide Media, Pressings, Packaging, Nameable, Colours, Metals, Gems, Finishes, Effects, Editions, Extras, PlainWord;
  }

  function Name(): string { "x , the" }

  lemma NameIs()
    ensures SepFree(Name()) && Unopened(Name()) && Folded(Name()) && !IsSpace(Name()[0]) && !IsSpace(Name()[|Name()| - 1])
    ensures Name() != "" && EndsWith(Name(), ", the") && |Name()| == 7 && Name()[1] == ' '
  {
  }

  lemma NameIsSpaced()
    ensures Findable(Name()) && SpacedArticle(Name())
  {
    hide Name, Fold, Strip, BareKey, Count, EndsWith;
    NameIs();
    FoldSame(Name());
    StripSame(Name());
    WantedKey(Name());
    CountEmpty();
  }

  lemma CountEmpty()
    ensures Count("", ',') == 0
  {
  }

  /** "x , the" is one of them. */
  lemma ASpaceBeforeTheArticleChangesTheRecord()
    ensures Findable(Name()) && !EveryTitleKeepsTheRecord(StoreVocabulary(), Name())
  {
    hide *;
    StoreOwnKey();
    NameIsSpaced();
    EveryTitleKeepsTheRecordIff(StoreVocabulary(), Name(), "y");
  }
}
