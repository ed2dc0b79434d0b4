/**
 What names a record is never dropped from its key: an aside or a trailing segment that
 holds one word no vocabulary and no phrase knows keeps it, whatever title it stands behind.
 */
module RecordNames {
  import opened Options
  import opened Text
  import opened Pattern
  import opened TitleKey
  import opened RecordKeys
  import opened RecordAside
  import opened WordPlaces

  /** No phrase can take the word. */
  predicate Foreign(w: string) {
    forall p :: p in PHRASES + [BOX_SET] ==> !CanTake(p, w)
  }

  /** A word that says which record this is: no noise, no pressing, no number and no part of
      a phrase. */
  predicate Telling(v: Vocabulary, w: string) {
    w !in v.noise && w !in v.variant && w !in v.nameable && !Digits(w) && Foreign(w)
  }

  // ----- The phrases leave it -----

  predicate Whole(p: Regex) { Bounded(p) && HeadsFirst(p) }

  function WordsOf(a: Atom): seq<string> { if a.OneOf? || a.Perhaps? then a.words else [] }

  lemma LettersFirst(x: string)
    requires AllAlnum(x) || forall i :: 0 <= i < |x| ==> !IsAlnum(x[i])
    ensures HeadFirst(x)
  {
    if AllAlnum(x) {
      assert x[..|x|] == x;
      HeadIs(x, |x|);
    }
  }

  lemma InchFirst()
    ensures HeadFirst("in.")
  {
    assert "in."[..2] == "in";
    HeadIs("in.", 2);
  }

  lemma SizeIsWhole()
    ensures Whole(SIZE)
  {
    InchFirst();
    forall k, x | 0 <= k < |SIZE| && x in WordsOf(SIZE[k]) ensures HeadFirst(x) {
      if x != "in." { LettersFirst(x); }
    }
  }

  lemma OthersAreWhole()
    ensures Whole(WEIGHT) && Whole(COUNT) && Whole(BOX_SET)
  {
    forall k, x | 0 <= k < |WEIGHT| && x in WordsOf(WEIGHT[k]) ensures HeadFirst(x) { LettersFirst(x); }
    forall k, x | 0 <= k < |COUNT| && x in WordsOf(COUNT[k]) ensures HeadFirst(x) { LettersFirst(x); }
    forall k, x | 0 <= k < |BOX_SET| && x in WordsOf(BOX_SET[k]) ensures HeadFirst(x) { LettersFirst(x); }
  }

  lemma {:induction false} CleanedKeeps(phrases: seq<Regex>, s: string, w: string)
    requires forall p :: p in phrases ==> Whole(p) && !CanTake(p, w)
    requires w in Words(s)
    ensures w in Words(Cleaned(phrases, s))
  {
    hide Whole, CanTake, Words;
    if phrases != [] {
      assert phrases[0] in phrases;
      PhraseKeeps(phrases[0], s, w);
      CleanedKeeps(phrases[1..], Sub(phrases[0], false, s, 0), w);
    }
  }

  lemma PhraseKeeps(p: Regex, s: string, w: string)
    requires Whole(p) && !CanTake(p, w) && w in Words(s)
    ensures w in Words(Sub(p, false, s, 0))
  {
    hide CanTake, Words;
    SubKeepsWord(p, s, w);
  }

  lemma PhrasesKeep(s: string, w: string)
    requires Foreign(w) && w in Words(s)
    ensures w in Words(Cleaned(PHRASES, s)) && w in Words(Cleaned(PHRASES + [BOX_SET], s))
  {
    hide Whole, CanTake, Words, SIZE, WEIGHT, COUNT, BOX_SET;
    SizeIsWhole();
    OthersAreWhole();
    assert forall p :: p in PHRASES ==> p in PHRASES + [BOX_SET];
    CleanedKeeps(PHRASES, s, w);
    CleanedKeeps(PHRASES + [BOX_SET], s, w);
  }

  /** Text that holds a telling word is never taken for pressing wording. */
  lemma NoVariant(v: Vocabulary, text: string, w: string)
    requires Telling(v, w) && w in Words(Fold(text))
    ensures !IsVariant(v, text)
  {
    hide Words, Cleaned, Foreign, PHRASES, BOX_SET;
    PhrasesKeep(Fold(text), w);
  }

  // ----- A text and its last stretch -----

  /** Nothing in front, or white space. */
  predicate Gap(h: string) { h == "" || IsSpace(h[|h| - 1]) }

  /** The last stretch of a text: it begins in no space, and no separator stands in it. */
  predicate Stretch(t: string) { t != "" && !IsSpace(t[0]) && SepFree(t) }

  predicate Unbracketing(t: string) { forall i :: 0 <= i < |t| ==> CloserOf(t[i]).None? && !IsCloser(t[i]) }

  /** It has no brackets, or is one aside. */
  predicate Simple(t: string) {
    Unbracketing(t) ||
    (|t| >= 2 && IsOpener(t[0]) && t == FencedIn(t[0], t[1..|t| - 1]) && Unbracketing(t[1..|t| - 1]))
  }

  predicate Tells(v: Vocabulary, t: string, w: string) { Telling(v, w) && w in Words(Fold(t)) }

  lemma FoldGap(h: string)
    requires Gap(h)
    ensures Gap(Fold(h)) && Parted(Fold(h))
  {
    if h != "" {
      var init, last := h[..|h| - 1], h[|h| - 1..];
      assert h == init + last && last == [h[|h| - 1]];
      FoldAppend(init, last);
      FoldSame(last);
    }
  }

  lemma StretchIsNoVariant(v: Vocabulary, h: string, t: string, w: string)
    requires Gap(h) && Tells(v, t, w)
    ensures !IsVariant(v, h + t) && HasInk(h + t)
  {
    hide Words, Telling, IsVariant;
    FoldAppend(h, t);
    FoldGap(h);
    WordsBehind(Fold(h), Fold(t), w);
    NoVariant(v, h + t, w);
    WordIsInk(h + t, w);
  }

  lemma {:induction false} FoldSpaces(s: string)
    requires AllSpace(s)
    ensures Fold(s) == s
  {
    FoldSame(s);
  }

  lemma WordIsInk(s: string, w: string)
    requires w in Words(Fold(s))
    ensures HasInk(s)
  {
    if !HasInk(s) {
      FoldSpaces(s);
      SomeWord(s);
    }
  }

  lemma SepBefore(h: string, t: string, i: nat)
    requires Stretch(t) && i <= |h + t|
    ensures SepEnd(h + t, i).Some? ==> SepEnd(h + t, i).value <= |h|
    ensures SegmentEnd(h + t, i).Some? ==> SegmentEnd(h + t, i).value <= |h|
  {
    var s := h + t;
    assert s[|h|] == t[0] && forall k :: |h| <= k < |s| ==> s[k] == t[k - |h|];
  }

  lemma {:induction false} BoundaryBefore(h: string, t: string, wanted: string, i: nat)
    requires Stretch(t) && i <= |h + t|
    ensures Boundary(h + t, wanted, i).Some? ==> Boundary(h + t, wanted, i).value <= |h|
    decreases |h + t| - i
  {
    hide SepEnd, BareKey, HasInk, Stretch;
    if i < |h + t| {
      SepBefore(h, t, i);
      var sep := SepEnd(h + t, i);
      BoundaryBefore(h, t, wanted, if sep.None? then i + 1 else sep.value);
    }
  }

  lemma BodyEnds(h: string, t: string, artist: Option<string>) returns (rest: string)
    requires Stretch(t) && Gap(h)
    ensures Body(h + t, SplitFront(h + t, artist)) == rest + t && Gap(rest)
  {
    hide Boundary, Stretch;
    rest := h;
    var front := SplitFront(h + t, artist);
    if front.Located? {
      BoundaryBefore(h, t, BareKey(artist.value), 0);
      rest := h[front.end..];
      assert (h + t)[front.end..] == rest + t;
    }
  }

  // ----- Dropping fences keeps the stretch -----

  lemma Behind(h: string, t: string)
    ensures (h + t)[|h|..] == t && forall k :: |h| <= k < |h + t| ==> (h + t)[k] == t[k - |h|]
  {
  }

  lemma StretchUnfenced(v: Vocabulary, h: string, t: string, w: string)
    requires Simple(t) && Tells(v, t, w)
    ensures Unfenced(v, h + t, |h|) == t
  {
    hide IsVariant, Telling, Words, Fenced;
    Behind(h, t);
    if Unbracketing(t) {
      Unbracketed(v, h + t, |h|);
    } else {
      AsideCloses(h, t);
      hide BracketEnd, Tells;
      StretchIsNoVariant(v, "", t, w);
      assert "" + t == t;
      AsideKept(v, h, t);
    }
  }

  lemma AsideCloses(h: string, t: string)
    requires |t| >= 2 && IsOpener(t[0]) && t == FencedIn(t[0], t[1..|t| - 1]) && Unbracketing(t[1..|t| - 1])
    ensures BracketEnd(h + t, |h|) == Some(|h + t| - 1)
  {
    var s, aside, closer := h + t, t[1..|t| - 1], Closer(t[0]);
    Behind(h, t);
    forall k | |h| + 1 <= k < |s| - 1 ensures s[k] != closer {
      assert s[k] == aside[k - |h| - 1];
    }
    FindIs(s, closer, |h| + 1, |s| - 1);
  }

  lemma AsideKept(v: Vocabulary, h: string, t: string)
    requires t != "" && BracketEnd(h + t, |h|) == Some(|h + t| - 1) && !IsVariant(v, t)
    ensures Unfenced(v, h + t, |h|) == t
  {
    hide IsVariant, BracketEnd;
    var s := h + t;
    assert s[|h|..|s|] == t && t + "" == t;
    assert Unfenced(v, s, |s|) == "";
  }

  /** A bracket that opens in front of the stretch closes there too, or at its very end. */
  lemma ClosesOutside(h: string, t: string, i: nat)
    requires Simple(t) && i < |h|
    ensures BracketEnd(h + t, i).Some? && BracketEnd(h + t, i).value >= |h| ==> BracketEnd(h + t, i).value == |h + t| - 1
    ensures BracketEnd(h + t, i).Some? ==> IsCloser((h + t)[BracketEnd(h + t, i).value])
  {
    var s := h + t;
    assert forall k :: |h| <= k < |s| ==> s[k] == t[k - |h|];
    assert forall k :: 0 < k < |t| - 1 ==> t[1..|t| - 1][k - 1] == t[k];
  }

  lemma {:induction false} UnfencedKeeps(v: Vocabulary, h: string, t: string, w: string, i: nat) returns (kept: string)
    requires Simple(t) && Gap(h) && Tells(v, t, w) && i <= |h|
    ensures Unfenced(v, h + t, i) == kept + t
    ensures if i == |h| then kept == "" else kept != "" && Gap(kept)
    decreases |h| - i
  {
    hide IsVariant, BracketEnd, Simple, Tells, Unfenced;
    var s := h + t;
    if i == |h| {
      StretchUnfenced(v, h, t, w);
      kept := "";
      assert "" + t == t;
    } else {
      ClosesOutside(h, t, i);
      UnfencedTurn(v, s, i);
      var close := BracketEnd(s, i);
      if close.None? {
        var rest := UnfencedKeeps(v, h, t, w, i + 1);
        kept := [s[i]] + rest;
        Regroup([s[i]], rest, t);
      } else if close.value < |h| {
        var end := close.value + 1;
        var left := if IsVariant(v, s[i..end]) then "" else s[i..end];
        var rest := UnfencedKeeps(v, h, t, w, end);
        kept := left + rest;
        Regroup(left, rest, t);
      } else {
        kept := h[i..];
        assert s[i..close.value + 1] == kept + t && kept + t + "" == kept + t;
        StretchIsNoVariant(v, kept, t, w);
      }
    }
  }

  // ----- So do splitting and joining -----

  lemma {:induction false} NoSegment(h: string, t: string, start: nat, i: nat)
    requires Stretch(t) && start <= |h| <= i <= |h + t|
    ensures Segments(h + t, start, i) == [(h + t)[start..]]
    decreases |h + t| - i
  {
    if i < |h + t| {
      SepBefore(h, t, i);
      NoSegment(h, t, start, i + 1);
    }
  }

  lemma {:induction false} LastSegment(h: string, t: string, start: nat, i: nat) returns (y: string)
    requires Stretch(t) && Gap(h) && start <= i <= |h|
    ensures var parts := Segments(h + t, start, i); parts[|parts| - 1] == y + t && Gap(y)
    decreases |h| - i
  {
    hide SegmentEnd, Stretch;
    if i == |h| {
      NoSegment(h, t, start, i);
      y := h[start..];
      assert (h + t)[start..] == y + t;
    } else {
      SepBefore(h, t, i);
      var e := SegmentEnd(h + t, i);
      if e.Some? { y := LastSegment(h, t, e.value, e.value); } else { y := LastSegment(h, t, start, i + 1); }
    }
  }

  lemma RejoinedEnds(parts: seq<string>, y: string, t: string) returns (z: string)
    requires parts != [] && parts[|parts| - 1] == y + t && Gap(y) && HasInk(y + t)
    ensures Rejoined(parts) == z + t && Gap(z)
  {
    var n := |parts| - 1;
    z := y;
    if Inked(parts[..n]) {
      z := Rejoined(parts[..n]) + " - " + y;
      Regroup(Rejoined(parts[..n]) + " - ", y, t);
    }
  }

  lemma {:induction false} StripEnds(z: string, t: string) returns (rest: string, kept: string, space: string)
    requires Gap(z) && t != "" && !IsSpace(t[0])
    ensures Strip(z + t) == rest + kept && Gap(rest) && t == kept + space && AllSpace(space) && kept != "" && kept[0] == t[0]
  {
    if z != "" && IsSpace(z[0]) {
      assert (z + t)[1..] == z[1..] + t;
      rest, kept, space := StripEnds(z[1..], t);
    } else {
      rest := z;
      kept, space := RightStripEnds(z, t);
    }
  }

  lemma {:induction false} RightStripEnds(z: string, t: string) returns (kept: string, space: string)
    requires t != "" && !IsSpace(t[0])
    ensures RightStrip(z + t) == z + kept && t == kept + space && AllSpace(space) && kept != "" && kept[0] == t[0]
  {
    var n := |t| - 1;
    if IsSpace(t[n]) {
      assert (z + t)[..|z + t| - 1] == z + t[..n];
      kept, space := RightStripEnds(z, t[..n]);
      space := space + [t[n]];
    } else {
      kept, space := t, "";
    }
  }

  lemma KeptTells(v: Vocabulary, t: string, kept: string, space: string, w: string)
    requires Tells(v, t, w) && t == kept + space && AllSpace(space)
    ensures Tells(v, kept, w)
  {
    FoldAppend(kept, space);
    FoldSpaces(space);
    WordsBeforeSpace(Fold(kept), space, w);
  }

  // ----- So does the inner key -----

  lemma {:induction false} LeadBefore(h: string, t: string, form: string, k: nat)
    requires Stretch(t) && k <= |h + t|
    ensures LeadFrom(h + t, form, k).Some? ==> LeadFrom(h + t, form, k).value <= |h|
  {
    hide SepEnd, Stretch;
    if StartsAt(h + t, k, form) { SepBefore(h, t, k + |form|); }
    if k > 0 { LeadBefore(h, t, form, k - 1); }
  }

  lemma {:induction false} StripFormsEnds(h: string, t: string, forms: seq<string>) returns (rest: string)
    requires Stretch(t) && Gap(h)
    ensures StripForms(h + t, forms) == rest + t && Gap(rest)
  {
    hide Stretch, LeadFrom;
    rest := h;
    if forms != [] {
      if Leads(h + t, forms[0]) {
        LeadBefore(h, t, forms[0], Skip(h + t, 0));
        var e := LeadEnd(h + t, forms[0]).value;
        rest := h[e..];
        assert (h + t)[e..] == rest + t;
      } else {
        rest := StripFormsEnds(h, t, forms[1..]);
      }
    }
  }

  lemma HyphenEnds(s: string, i: nat)
    requires i <= |s|
    ensures var m := Match(HYPHENATED, s, i); m.Some? ==> i < m.value && s[m.value - 1] == '-'
  {
    var rest := HYPHENATED[2..];
    assert HYPHENATED == [HYPHENATED[0]] + [HYPHENATED[1]] + rest;
    assert HYPHENATED[1..] == [HYPHENATED[1]] + rest && HYPHENATED[1..][1..] == rest;
    assert Match(HYPHENATED, s, i).Some? ==> Match(HYPHENATED, s, i) == Match(HYPHENATED[1..], s, i);
    assert Match(HYPHENATED[1..], s, i) == FirstOf(["re", "pre"], rest, s, i);
    if i + 2 <= |s| { DashEnds(s, i + 2); }
    if i + 3 <= |s| { DashEnds(s, i + 3); }
    OneOfTwo("re", "pre", rest, s, i);
  }

  lemma OneOfTwo(a: string, b: string, rest: Regex, s: string, i: nat)
    requires i <= |s|
    ensures var m := FirstOf([a, b], rest, s, i);
            m.Some? ==> (i + |a| <= |s| && m == Match(rest, s, i + |a|)) || (i + |b| <= |s| && m == Match(rest, s, i + |b|))
  {
    assert [a, b][1..] == [b] && [b][1..] == [];
    assert FirstOf([], rest, s, i) == None;
  }

  lemma DashEnds(s: string, i: nat)
    requires i <= |s|
    ensures var m := Match(HYPHENATED[2..], s, i); m.Some? ==> i < m.value && s[m.value - 1] == '-'
  {
    var rest: Regex := [Ahead(["issue", "press", "master", "order"])];
    assert HYPHENATED[2..] == [OneOf(["-"])] + rest && HYPHENATED[2..][1..] == rest;
    assert Match(HYPHENATED[2..], s, i) == FirstOf(["-"], rest, s, i);
    assert ["-"][1..] == [] && FirstOf([], rest, s, i) == None;
    assert rest[1..] == [] && forall j: nat :: j <= |s| ==> Match([], s, j) == Some(j);
    if StartsAt(s, i, "-") {
      assert s[i] == s[i..i + 1][0] == '-';
      assert Match(rest, s, i + 1).Some? ==> Match(rest, s, i + 1) == Some(i + 1);
    }
  }

  /** One turn of the substitution, which meets no empty match. */
  lemma JoinTurn(s: string, i: nat)
    requires i < |s|
    ensures var m := Match(HYPHENATED, s, i);
            if m.Some? then i < m.value && s[m.value - 1] == '-' &&
                            Sub(HYPHENATED, true, s, i) == s[i..m.value - 1] + Sub(HYPHENATED, true, s, m.value)
            else Sub(HYPHENATED, true, s, i) == [s[i]] + Sub(HYPHENATED, true, s, i + 1)
  {
    hide Match, HYPHENATED;
    HyphenEnds(s, i);
  }

  lemma JoinsNothing(h: string, t: string)
    requires Stretch(t)
    ensures Sub(HYPHENATED, true, h + t, |h|) == t
  {
    hide Match, HYPHENATED;
    var s := h + t;
    Behind(h, t);
    forall j: nat | |h| <= j < |s| ensures Match(HYPHENATED, s, j) == None { HyphenEnds(s, j); }
    SubNothing(HYPHENATED, true, s, |h|);
  }

  /** No hyphen in the stretch, so nothing of it is joined. */
  lemma {:induction false} JoinedEnds(h: string, t: string, i: nat) returns (rest: string)
    requires Stretch(t) && Gap(h) && i <= |h|
    ensures Sub(HYPHENATED, true, h + t, i) == rest + t
    ensures if i == |h| then rest == "" else rest != "" && Gap(rest)
    decreases |h| - i
  {
    hide Match, HYPHENATED, Sub;
    var s := h + t;
    if i == |h| {
      JoinsNothing(h, t);
      rest := "";
      assert "" + t == t;
    } else {
      Behind(h, t);
      JoinTurn(s, i);
      var m := Match(HYPHENATED, s, i);
      var end := if m.Some? then m.value else i + 1;
      var left := if m.Some? then s[i..m.value - 1] else [s[i]];
      var more := JoinedEnds(h, t, end);
      rest := left + more;
      Regroup(left, more, t);
    }
  }

  lemma ReplacedKeeps(t: string, w: string)
    requires w in Words(t)
    ensures w in Words(Replaced(t, '&', " and "))
  {
    hide Words, Replaced;
    var at := WordIsPlaced(t, w);
    var a, b := t[..at], t[at + |w|..];
    assert t == a + w + b;
    ReplacedAppend(a + w, b, '&', " and ");
    ReplacedAppend(a, w, '&', " and ");
    assert '&' !in w;
    Unreplaced(w, '&', " and ");
    ReplacedParted(a);
    ReplacedBegins(b);
    Between(Replaced(a, '&', " and "), w, Replaced(b, '&', " and "));
  }

  lemma Between(x: string, w: string, y: string)
    requires Parted(x) && w != "" && AllAlnum(w) && (y == "" || !IsAlnum(y[0]))
    ensures w in Words(x + w + y)
  {
    var u := x + w + y;
    assert u[|x|..|x| + |w|] == w;
    assert Placed(u, |x|, w);
    PlacedIsWord(u, |x|, w);
  }

  lemma ReplacedBegins(s: string)
    requires s == "" || !IsAlnum(s[0])
    ensures var r := Replaced(s, '&', " and "); r == "" || !IsAlnum(r[0])
  {
  }

  lemma ReplacedParted(s: string)
    requires Parted(s)
    ensures Parted(Replaced(s, '&', " and "))
  {
    if s != "" {
      var init, last := s[..|s| - 1], [s[|s| - 1]];
      assert s == init + last;
      ReplacedAppend(init, last, '&', " and ");
      assert last[1..] == "" && Replaced("", '&', " and ") == "";
      assert Replaced(last, '&', " and ") == if last[0] == '&' then " and " else last;
    }
  }

  /** Where the stretch begins once it is folded: leading apostrophes are gone. */
  lemma FoldedStretch(t: string, w: string) returns (space: string, folded: string)
    requires Stretch(t) && w in Words(Fold(t))
    ensures Fold(t) == space + folded && AllSpace(space) && Stretch(folded) && w in Words(folded)
  {
    hide Words, Fold;
    var u := Fold(t);
    var j := Skip(u, 0);
    space, folded := u[..j], u[j..];
    FoldSepFree(t);
    WordsPastSpace(u, j, w);
    NoWords();
    Slice(u, j, |u|);
    assert folded == u[j..|u|];
  }

  lemma NoWords()
    ensures Words("") == []
  {
  }

  lemma PreparedTells(h: string, t: string, w: string, artist: Option<string>)
    requires Gap(h) && Stretch(t) && w in Words(Fold(t))
    ensures w in Words(Prepared(h + t, artist, true))
  {
    hide Words, StripForms, Sub, Replaced, Stretch;
    FoldAppend(h, t);
    FoldGap(h);
    var space, folded := FoldedStretch(t, w);
    var a := Fold(h) + space;
    Regroup(Fold(h), space, folded);
    assert Gap(a);
    var b := a;
    if artist.Some? && artist.value != "" { b := StripFormsEnds(a, folded, Forms(artist.value)); }
    assert WithoutArtist(Fold(h + t), artist) == b + folded;
    var c := JoinedEnds(b, folded, 0);
    ReplacedAppend(c, folded, '&', " and ");
    ReplacedParted(c);
    ReplacedKeeps(folded, w);
    WordsBehind(Replaced(c, '&', " and "), Replaced(folded, '&', " and "), w);
  }

  lemma KeyTells(v: Vocabulary, h: string, t: string, w: string, artist: Option<string>)
    requires Gap(h) && Stretch(t) && Tells(v, t, w)
    ensures w in Words(Key(v, h + t, artist, true))
  {
    hide Words, Prepared, Cleaned, Foreign, Joined, Stretch;
    PreparedTells(h, t, w, artist);
    PhrasesKeep(Prepared(h + t, artist, true), w);
    var tokens := Tokens(v, h + t, artist, true);
    assert w in tokens;
    TokensAreWords(v, h + t, artist, true);
    JoinedWords(tokens);
  }

  // ----- The law -----

  /** A telling word in the last stretch of a title, behind any separator or none, fenced or
      not, is a word of its record key, whatever stands in front. */
  lemma NamesStay(v: Vocabulary, h: string, t: string, w: string, artist: Option<string>)
    requires Gap(h) && Stretch(t) && Simple(t) && Tells(v, t, w)
    ensures w in Words(RecordKey(v, h + t, artist))
  {
    hide Words, SplitFront, Body, Unfenced, Segments, Trimmed, Rejoined, Strip, IsVariant, Key, Tells, Simple, Stretch, HasInk;
    var front := SplitFront(h + t, artist);
    var body := BodyEnds(h, t, artist);
    var x := UnfencedKeeps(v, body, t, w, 0);
    var stripped := Unfenced(v, Body(h + t, front), 0);
    assert stripped == x + t;
    StretchIsNoVariant(v, x, t, w);
    if front.Unlocated? {
      KeyTells(v, x, t, w, artist);
    } else {
      RebuiltTells(v, x, t, w, if front.NoArtist? then artist else None);
    }
  }

  lemma RebuiltTells(v: Vocabulary, x: string, t: string, w: string, artist: Option<string>)
    requires Gap(x) && Stretch(t) && Tells(v, t, w)
    ensures Rebuilt(v, x + t) != "" && w in Words(Key(v, Rebuilt(v, x + t), artist, true))
  {
    hide Words, Segments, Rejoined, Strip, IsVariant, Key, Tells, HasInk;
    var parts := Segments(x + t, 0, 0);
    var y := LastSegment(x, t, 0, 0);
    StretchIsNoVariant(v, y, t, w);
    assert Trimmed(v, parts) == parts;
    var z := RejoinedEnds(parts, y, t);
    var rest, kept, space := StripEnds(z, t);
    KeptTells(v, t, kept, space, w);
    assert forall i :: 0 <= i < |kept| ==> kept[i] == t[i];
    KeyTells(v, rest, kept, w, artist);
  }

  /** An aside that holds a telling word is kept: the word is in the key of every title it
      stands behind, which is therefore another record wherever the title's own key lacks
      it. */
  lemma AnAsideThatNamesIsKept(v: Vocabulary, title: string, open: char, aside: string, w: string, artist: Option<string>)
    requires IsOpener(open) && SepFree(aside) && Unbracketing(aside) && Tells(v, aside, w)
    ensures w in Words(RecordKey(v, WithAsideIn(title, open, aside), artist))
    ensures w !in Words(RecordKey(v, title, artist)) ==>
              RecordKey(v, WithAsideIn(title, open, aside), artist) != RecordKey(v, title, artist)
  {
    hide RecordKey, Telling, Words;
    var t := FencedIn(open, aside);
    assert t[1..|t| - 1] == aside;
    assert forall i :: 0 < i < |t| - 1 ==> t[i] == aside[i - 1];
    FencedTells(open, aside, w);
    NamesStay(v, title + " ", t, w, artist);
    assert WithAsideIn(title, open, aside) == title + " " + t;
  }

  lemma FencedTells(open: char, aside: string, w: string)
    requires IsOpener(open) && w in Words(Fold(aside))
    ensures w in Words(Fold(FencedIn(open, aside)))
  {
    hide Words;
    var close := Closer(open);
    FoldSame([open]);
    FoldSame([close]);
    FoldAppend([open] + aside, [close]);
    FoldAppend([open], aside);
    WordsBehind([open], Fold(aside), w);
    WordsThen([open] + Fold(aside), close);
  }

  /** And so is a trailing segment. */
  lemma ASegmentThatNamesIsKept(v: Vocabulary, title: string, segment: string, w: string, artist: Option<string>)
    requires SepFree(segment) && Unbracketing(segment) && Tells(v, segment, w)
    ensures w in Words(RecordKey(v, title + " - " + segment, artist))
    ensures w !in Words(RecordKey(v, title, artist)) ==>
              RecordKey(v, title + " - " + segment, artist) != RecordKey(v, title, artist)
  {
    hide RecordKey, Telling, Words;
    var j := Skip(segment, 0);
    var space, t := segment[..j], segment[j..];
    assert segment == space + t;
    FoldAppend(space, t);
    FoldSpaces(space);
    assert Fold(segment)[..j] == space && Fold(segment)[j..] == Fold(t);
    WordsPastSpace(Fold(segment), j, w);
    WordIsInk(t, w);
    var h := title + " - " + space;
    assert title + " - " + segment == h + t;
    NamesStay(v, h, t, w, artist);
  }
}
