/**
 Writing the artist in front of a title does not change the record: a marketplace's
 "Artist - Title" and a store's plain "Title" have one `RecordKey`.
 */
module RecordFront {
  import opened Options
  import opened Text
  import opened Pattern
  import opened TitleKey
  import opened RecordKeys
  import opened RecordAside

  function Fronted(artist: string, title: string): string { artist + " - " + title }

  /** An artist with no separator in its name, no space at its end and something left once
      it is folded: one a title can be searched for. */
  predicate Findable(artist: string) {
    && artist != "" && !IsSpace(artist[|artist| - 1]) && SepFree(artist)
    && BareKey(artist) != ""
  }

  /** The folded name ends in ", the" with a plain space, or nothing at all, before it. */
  predicate SpacedArticle(artist: string) {
    var base := Strip(Fold(artist));
    EndsWith(base, ", the") && Unopened(base) && (|base| == 5 || base[|base| - 6] == ' ')
  }

  predicate PlainArtist(artist: string) { Findable(artist) && !SpacedArticle(artist) }

  predicate Tidy(form: string) { form != "" ==> form[|form| - 1] != ' ' }

  predicate Unopened(s: string) { forall k :: 0 <= k < |s| ==> CloserOf(s[k]).None? }

  /** A title that starts with a word character and has no bracket. */
  predicate PlainTitle(title: string) { title != "" && IsWord(title[0]) && Unopened(title) }

  // ----- The boundary is found -----

  lemma NoSepWithin(artist: string, title: string, i: nat)
    requires Findable(artist) && i < |artist|
    ensures SepEnd(Fronted(artist, title), i) == None
  {
    hide BareKey;
    var s := Fronted(artist, title);
    var n := |artist|;
    assert s[n - 1] == artist[n - 1];
    var j := Skip(s, i);
    assert j < n && s[j] == artist[j];
  }

  lemma SepBehind(artist: string, title: string)
    requires title != "" && IsWord(title[0])
    ensures SepEnd(Fronted(artist, title), |artist|) == Some(|artist| + 3)
    ensures Fronted(artist, title)[..|artist|] == artist && Fronted(artist, title)[|artist| + 3..] == title
  {
    var s := Fronted(artist, title);
    var n := |artist|;
    assert s[n] == ' ' && s[n + 1] == '-' && s[n + 2] == ' ' && s[n + 3] == title[0];
    SkipIs(s, n, n + 1);
    SkipIs(s, n + 2, n + 3);
  }

  lemma {:induction false} BoundaryFound(artist: string, title: string, i: nat)
    requires Findable(artist) && PlainTitle(title) && i <= |artist|
    ensures Boundary(Fronted(artist, title), BareKey(artist), i) == Some(|artist| + 3)
    decreases |artist| - i
  {
    hide BareKey, SepEnd;
    if i < |artist| {
      NoSepWithin(artist, title, i);
      BoundaryFound(artist, title, i + 1);
    } else {
      SepBehind(artist, title);
      InkSomewhere(artist, |artist| - 1);
      InkSomewhere(title, 0);
    }
  }

  // ----- What it means to be led by a form -----

  predicate LeadsBy(x: string, form: string, j: nat) {
    && |form| <= j < |x| && x[..|form|] == form && AllSpace(x[|form|..j]) && IsSep(x[j])
    && HasInk(x[j + 1..])
  }

  lemma LeadsAt(x: string, form: string) returns (j: nat)
    requires x != "" && !IsSpace(x[0]) && Leads(x, form)
    ensures LeadsBy(x, form, j)
  {
    SkipIs(x, 0, 0);
    j := Skip(x, |form|);
    var e := Skip(x, j + 1);
    var k :| 0 <= k < |x[e..]| && !IsSpace(x[e..][k]);
    assert x[j + 1..][e + k - j - 1] == x[e..][k];
    assert x[0..0 + |form|] == x[..|form|];
  }

  lemma LedAt(x: string, form: string, j: nat)
    requires x != "" && !IsSpace(x[0]) && LeadsBy(x, form, j)
    ensures Leads(x, form)
  {
    SkipIs(x, 0, 0);
    assert x[0..0 + |form|] == x[..|form|];
    assert forall k :: |form| <= k < j ==> x[k] == x[|form|..j][k - |form|];
    SkipIs(x, |form|, j);
    var e := Skip(x, j + 1);
    var k :| 0 <= k < |x[j + 1..]| && !IsSpace(x[j + 1..][k]);
    assert x[j + 1..][k] == x[j + 1 + k];
    assert e < |x|;
    assert x[e..][0] == x[e];
  }

  lemma LeadsLonger(x: string, more: string, form: string, j: nat)
    requires LeadsBy(x, form, j)
    ensures LeadsBy(x + more, form, j)
  {
    var y := x + more;
    assert y[..|form|] == x[..|form|] && y[|form|..j] == x[|form|..j];
    assert y[j + 1..] == x[j + 1..] + more;
    InkBefore(x[j + 1..], more);
  }

  lemma InkAfter(s: string, t: string)
    requires HasInk(t)
    ensures HasInk(s + t)
  {
    var i :| 0 <= i < |t| && !IsSpace(t[i]);
    assert (s + t)[|s| + i] == t[i];
  }

  /** A dash and spaces between a head and a tail, where a plain " - " led the head off. */
  lemma LeadsThrough(head: string, before: string, dash: char, after: string, tail: string, again: string,
                     form: string, j: nat)
    requires LeadsBy(head + " - " + again, form, j) && Tidy(form) && SepFree(form)
    requires AllSpace(before) && AllSpace(after) && IsSep(dash)
    requires HasInk(again) ==> HasInk(tail)
    ensures exists k: nat :: LeadsBy(head + (before + [dash] + after) + tail, form, k)
  {
    var x := head + " - " + again;
    var y := head + (before + [dash] + after) + tail;
    var n := |head|;
    assert x[n] == ' ' && x[n + 1] == '-';
    var at := n + |before|;
    assert y[at] == dash;
    if j < n {
      assert y[..|form|] == x[..|form|] && y[|form|..j] == x[|form|..j] && y[j] == x[j];
      assert y[j + 1..][at - j - 1] == dash;
      InkSomewhere(y[j + 1..], at - j - 1);
      assert LeadsBy(y, form, j);
    } else {
      JoinerLeads(head, again, form, j);
      assert y[..|form|] == x[..|form|];
      forall k | 0 <= k < at - |form| ensures IsSpace(y[|form|..at][k]) {
        if k + |form| < n { assert y[|form|..at][k] == head[k + |form|]; }
        else { assert y[|form|..at][k] == before[k + |form| - n]; }
      }
      assert y[at + 1..] == after + tail;
      InkAfter(after, tail);
      assert LeadsBy(y, form, at);
    }
  }

  lemma JoinerLeads(head: string, again: string, form: string, j: nat)
    requires LeadsBy(head + " - " + again, form, j) && Tidy(form) && SepFree(form) && j >= |head|
    ensures |form| <= |head| && AllSpace(head[|form|..]) && HasInk(again)
  {
    var x := head + " - " + again;
    var n := |head|;
    assert x[n] == ' ' && x[n + 1] == '-' && x[n + 2] == ' ';
    assert forall k :: 0 <= k < |form| ==> x[k] == form[k];
    assert forall k :: |form| <= k < j ==> x[k] == x[|form|..j][k - |form|];
    assert j == n + 1;
    assert form != "" ==> x[|form| - 1] == form[|form| - 1];
    forall k | 0 <= k < n - |form| ensures IsSpace(head[|form|..][k]) {
      assert head[|form|..][k] == x[|form| + k];
    }
    var k :| 0 <= k < |x[j + 1..]| && !IsSpace(x[j + 1..][k]);
    assert x[j + 1..][0] == ' ';
    assert again[k - 1] == x[j + 1..][k];
  }

  // ----- Folding a title piece by piece -----

  lemma {:induction false} InkFolds(s: string, i: nat)
    requires i < |s| && !IsSpace(s[i]) && !IsApostrophe(s[i])
    ensures HasInk(Fold(s))
  {
    var rest := Fold(s[1..]);
    if i == 0 {
      assert Fold(s) == [Lower(s[0])] + rest;
      assert !IsSpace(Fold(s)[0]);
    } else {
      InkFolds(s[1..], i - 1);
      InkAfter(if IsApostrophe(s[0]) then "" else [Lower(s[0])], rest);
    }
  }

  lemma FoldHead(s: string)
    requires s != "" && IsWord(s[0])
    ensures Fold(s) != "" && !IsSpace(Fold(s)[0])
  {
    assert Fold(s) == [Lower(s[0])] + Fold(s[1..]);
  }

  // ----- Pieces -----

  /** Where the first separator of `title` from `i` on is, and the pieces around it. */
  lemma {:induction false} FirstPiece(title: string, start: nat, i: nat) returns (m: nat)
    requires start <= i <= |title|
    ensures i <= m <= |title|
    ensures m == |title| ==> Segments(title, start, i) == [title[start..]]
    ensures m < |title| ==> SegmentEnd(title, m).Some?
    ensures m < |title| ==>
              var e := SegmentEnd(title, m).value;
              Segments(title, start, i) == [title[start..m]] + Segments(title, e, e)
    decreases |title| - i
  {
    if i == |title| || SegmentEnd(title, i).Some? { m := i; } else { m := FirstPiece(title, start, i + 1); }
  }

  /** A separator is spaces, one dash and spaces. */
  lemma DashIn(title: string, m: nat) returns (at: nat)
    requires m <= |title| && SegmentEnd(title, m).Some?
    ensures m <= at < SegmentEnd(title, m).value && IsSep(title[at]) && !IsSpace(title[at]) && !IsApostrophe(title[at])
    ensures !IsUpper(title[at])
    ensures AllSpace(title[m..at]) && AllSpace(title[at + 1..SegmentEnd(title, m).value])
  {
    at := Skip(title, m);
  }

  lemma {:induction false} RejoinedHead(parts: seq<string>)
    requires parts != [] && HasInk(parts[0])
    ensures Rejoined(parts) == if Inked(parts[1..]) then parts[0] + " - " + Rejoined(parts[1..]) else parts[0]
  {
    var n := |parts| - 1;
    if n == 0 {
      assert parts[..0] == [] && parts[1..] == [];
    } else {
      var init, last := parts[..n], parts[n];
      RejoinedHead(init);
      assert init[0] == parts[0] && init[1..] == parts[1..][..n - 1] && parts[1..][n - 1] == last;
      assert parts[1..] == init[1..] + [last];
      assert Inked(init);
      if Inked(init[1..]) {
        Regroup3(parts[0] + " - ", Rejoined(init[1..]), " - ", last);
      } else {
        NoneInked(init[1..]);
      }
    }
  }

  lemma Regroup3(a: string, b: string, c: string, d: string)
    ensures a + b + c + d == a + (b + c + d)
  {
  }

  lemma {:induction false} NoneInked(parts: seq<string>)
    requires !Inked(parts)
    ensures Rejoined(parts) == ""
  {
    if parts != [] {
      var n := |parts| - 1;
      assert parts[n] in parts && forall p :: p in parts[..n] ==> p in parts;
      NoneInked(parts[..n]);
    }
  }

  /** What is kept of the pieces behind the first has no ink the title lacks there. */
  lemma InkSurvives(title: string, e: nat, kept: seq<string>)
    requires e <= |title| && kept <= Segments(title, e, e) && HasInk(Fold(Rejoined(kept)))
    ensures HasInk(Fold(title[e..]))
  {
    hide Segments, Rejoined, SegmentEnd;
    var m := FirstPiece(title, e, e);
    if m < |title| {
      var at := DashIn(title, m);
      assert title[e..][at - e] == title[at];
      InkFolds(title[e..], at - e);
    } else {
      AtMostOne(kept, title[e..]);
    }
  }

  lemma AtMostOne(kept: seq<string>, piece: string)
    requires kept <= [piece]
    ensures Rejoined(kept) == "" || Rejoined(kept) == piece
  {
    if kept != [] { assert kept[..0] == [] && kept[0] == piece; }
  }

  // ----- The rebuilt title is led by nothing that does not lead the title -----

  predicate Led(x: string, form: string) { exists j: nat :: j < |x| && LeadsBy(x, form, j) }

  lemma RightStripLed(s: string, form: string, j: nat)
    requires LeadsBy(Fold(RightStrip(s)), form, j)
    ensures LeadsBy(Fold(s), form, j)
  {
    RightStripIs(s);
    var t :| AllSpace(t) && s == RightStrip(s) + t;
    FoldAppend(RightStrip(s), t);
    LeadsLonger(Fold(RightStrip(s)), Fold(t), form, j);
  }

  lemma JoinedLeads(title: string, m: nat, kept: seq<string>, form: string, j: nat)
    requires m <= |title| && SegmentEnd(title, m).Some? && Tidy(form) && SepFree(form)
    requires kept <= Segments(title, SegmentEnd(title, m).value, SegmentEnd(title, m).value)
    requires LeadsBy(Fold(title[..m] + " - " + Rejoined(kept)), form, j)
    ensures Led(Fold(title), form)
  {
    hide Segments, Rejoined, SegmentEnd, LeadsBy, Fold, Tidy;
    var e := SegmentEnd(title, m).value;
    var at := DashIn(title, m);
    var head, again, tail := Fold(title[..m]), Fold(Rejoined(kept)), Fold(title[e..]);
    FoldAppend(title[..m] + " - ", Rejoined(kept));
    FoldAppend(title[..m], " - ");
    FoldSame(" - ");
    var between := title[m..at] + [title[at]] + title[at + 1..e];
    FoldSame(between);
    assert title == title[..m] + between + title[e..];
    FoldAppend(title[..m] + between, title[e..]);
    FoldAppend(title[..m], between);
    if HasInk(again) { InkSurvives(title, e, kept); }
    LeadsThrough(head, title[m..at], title[at], title[at + 1..e], tail, again, form, j);
    var k: nat :| LeadsBy(head + between + tail, form, k);
    assert k < |Fold(title)| by { LeadsWithin(head + between + tail, form, k); }
  }

  lemma LeadsWithin(x: string, form: string, j: nat)
    requires LeadsBy(x, form, j)
    ensures j < |x|
  {
  }

  /** What is rebuilt of a plain title, before it is stripped, and where its head ends. */
  lemma RebuiltFrom(v: Vocabulary, title: string) returns (m: nat, kept: seq<string>)
    requires PlainTitle(title)
    ensures 0 < m <= |title| && Rebuilt(v, title) == RightStrip(if Inked(kept) then title[..m] + " - " + Rejoined(kept) else title[..m])
    ensures m == |title| ==> kept == []
    ensures m < |title| ==>
              SegmentEnd(title, m).Some? &&
              kept <= Segments(title, SegmentEnd(title, m).value, SegmentEnd(title, m).value)
  {
    hide IsVariant, Rejoined;
    SkipIs(title, 0, 0);
    assert SegmentEnd(title, 0) == None;
    m := FirstPiece(title, 0, 1);
    assert Segments(title, 0, 0) == Segments(title, 0, 1);
    var all := Trimmed(v, Segments(title, 0, 0));
    kept := all[1..];
    assert all[0] == title[0..m] == title[..m];
    assert title[..m][0] == title[0];
    InkSomewhere(title[..m], 0);
    RejoinedHead(all);
  }

  lemma RebuiltLeads(v: Vocabulary, title: string, form: string, j: nat)
    requires PlainTitle(title) && Tidy(form) && SepFree(form)
    requires LeadsBy(Fold(Rebuilt(v, title)), form, j)
    ensures Led(Fold(title), form)
  {
    hide Rebuilt, Segments, Rejoined, SegmentEnd, PlainTitle, Tidy, LeadsBy, Fold;
    var m, kept := RebuiltFrom(v, title);
    if Inked(kept) {
      RightStripLed(title[..m] + " - " + Rejoined(kept), form, j);
      JoinedLeads(title, m, kept, form, j);
    } else {
      RightStripLed(title[..m], form, j);
      assert title == title[..m] + title[m..];
      FoldAppend(title[..m], title[m..]);
      LeadsLonger(Fold(title[..m]), Fold(title[m..]), form, j);
      LeadsWithin(Fold(title), form, j);
    }
  }

  // ----- The law -----

  lemma {:induction false} StripFree(s: string)
    requires SepFree(s)
    ensures SepFree(Strip(s))
  {
    if s != "" && IsSpace(s[0]) {
      StripFree(s[1..]);
    } else {
      RightStripIs(s);
      var t :| AllSpace(t) && s == RightStrip(s) + t;
      assert forall i :: 0 <= i < |RightStrip(s)| ==> RightStrip(s)[i] == s[i];
    }
  }

  lemma FormsAreFree(artist: string)
    requires SepFree(artist)
    ensures forall f :: f in Forms(artist) ==> SepFree(f)
  {
    FoldSepFree(artist);
    StripFree(Fold(artist));
  }

  lemma {:induction false} NothingStripped(s: string, forms: seq<string>)
    requires forall f :: f in forms ==> !Leads(s, f)
    ensures StripForms(s, forms) == s
  {
    if forms != [] {
      assert forms[0] in forms && forall f :: f in forms[1..] ==> f in forms;
      NothingStripped(s, forms[1..]);
    }
  }

  lemma RebuiltHead(v: Vocabulary, title: string)
    requires PlainTitle(title)
    ensures Rebuilt(v, title) != "" && Rebuilt(v, title)[0] == title[0]
  {
    hide Rebuilt, Segments, Rejoined, SegmentEnd;
    var m, kept := RebuiltFrom(v, title);
    var whole := if Inked(kept) then title[..m] + " - " + Rejoined(kept) else title[..m];
    assert whole[0] == title[0];
    InkSomewhere(whole, 0);
    RightStripIs(whole);
    var t :| AllSpace(t) && whole == RightStrip(whole) + t;
  }

  lemma FrontIsFound(artist: string, title: string)
    requires Findable(artist) && PlainTitle(title)
    ensures SplitFront(Fronted(artist, title), Some(artist)) == Located(|artist| + 3)
    ensures Body(Fronted(artist, title), Located(|artist| + 3)) == title
  {
    hide Boundary, BareKey;
    BoundaryFound(artist, title, 0);
  }

  /** As long as no spelling of the artist leads what is rebuilt of the title, writing the
      artist in front of it does not change the record. */
  lemma RecordKeptUnlessLed(v: Vocabulary, artist: string, title: string)
    requires Findable(artist) && PlainTitle(title) && SplitFront(title, Some(artist)) == NoArtist
    requires !LedByAny(Fold(Rebuilt(v, title)), Forms(artist))
    ensures RecordKey(v, Fronted(artist, title), Some(artist)) == RecordKey(v, title, Some(artist))
  {
    hide SplitFront, Rebuilt, BareKey, Forms, Fold, Joined, Sub, Cleaned, StripForms, Leads;
    FrontIsFound(artist, title);
    Unbracketed(v, title, 0);
    assert title[0..] == title;
    RebuiltHead(v, title);
    var rebuilt := Rebuilt(v, title);
    NothingStripped(Fold(rebuilt), Forms(artist));
    assert Prepared(rebuilt, Some(artist), true) == Prepared(rebuilt, None, true);
    assert Tokens(v, rebuilt, Some(artist), true) == Tokens(v, rebuilt, None, true);
  }

  // ----- No bracket comes of a title without one -----

  lemma {:induction false} SegmentsUnopened(s: string, start: nat, i: nat)
    requires start <= i <= |s| && Unopened(s)
    ensures forall p :: p in Segments(s, start, i) ==> Unopened(p)
    decreases |s| - i
  {
    hide SegmentEnd;
    if i < |s| {
      var e := SegmentEnd(s, i);
      if e.Some? { SegmentsUnopened(s, e.value, e.value); } else { SegmentsUnopened(s, start, i + 1); }
    }
  }

  lemma {:induction false} RejoinedUnopened(parts: seq<string>)
    requires forall p :: p in parts ==> Unopened(p)
    ensures Unopened(Rejoined(parts))
  {
    if parts != [] {
      assert forall p :: p in parts[..|parts| - 1] ==> p in parts;
      RejoinedUnopened(parts[..|parts| - 1]);
      assert Unopened(parts[|parts| - 1]) && Unopened(" - ");
    }
  }

  lemma {:induction false} FoldUnopened(s: string)
    requires Unopened(s)
    ensures Unopened(Fold(s))
  {
    if s != "" { FoldUnopened(s[1..]); }
  }

  lemma {:induction false} StripUnopened(s: string)
    requires Unopened(s)
    ensures Unopened(Strip(s))
  {
    if s != "" && IsSpace(s[0]) {
      StripUnopened(s[1..]);
    } else {
      RightStripIs(s);
      var t :| AllSpace(t) && s == RightStrip(s) + t;
      assert forall i :: 0 <= i < |RightStrip(s)| ==> RightStrip(s)[i] == s[i];
    }
  }

  lemma RebuiltUnopened(v: Vocabulary, title: string)
    requires Unopened(title)
    ensures Unopened(Fold(Rebuilt(v, title)))
  {
    hide Segments, Rejoined, Strip, Fold, Unopened, IsVariant;
    SegmentsUnopened(title, 0, 0);
    var kept := Trimmed(v, Segments(title, 0, 0));
    assert forall p :: p in kept ==> p in Segments(title, 0, 0);
    RejoinedUnopened(kept);
    StripUnopened(Rejoined(kept));
    FoldUnopened(Rebuilt(v, title));
  }

  // ----- The spellings of a plain artist -----

  lemma {:induction false} StripEnds(s: string)
    ensures Strip(s) != "" ==> !IsSpace(Strip(s)[0]) && !IsSpace(Strip(s)[|Strip(s)| - 1])
  {
    if s != "" && IsSpace(s[0]) {
      StripEnds(s[1..]);
    } else {
      RightStripIs(s);
      var t :| AllSpace(t) && s == RightStrip(s) + t;
      assert RightStrip(s) != "" ==> RightStrip(s)[0] == s[0];
    }
  }

  /** The spellings with the article moved or dropped. */
  lemma ArticleIsTidy(base: string)
    requires EndsWith(base, ", the") && !(Unopened(base) && (|base| == 5 || base[|base| - 6] == ' '))
    ensures var b := base[..|base| - 5]; (Tidy(b) && Tidy("the " + b)) || (!Unopened(b) && !Unopened("the " + b))
  {
    var b := base[..|base| - 5];
    assert base == b + ", the";
    if Unopened(b) {
      assert Unopened(base);
    } else {
      var k :| 0 <= k < |b| && CloserOf(b[k]).Some?;
      assert ("the " + b)[k + 4] == b[k];
    }
  }

  /** A spelling that ends in a space has a bracket in it. */
  lemma FormIsTidy(artist: string, f: string)
    requires !SpacedArticle(artist) && f in Forms(artist)
    ensures Tidy(f) || !Unopened(f)
  {
    hide Strip, Fold, Unopened;
    var base := Strip(Fold(artist));
    StripEnds(Fold(artist));
    if EndsWith(base, ", the") { ArticleIsTidy(base); }
    if StartsAt(base, 0, "the ") && f == base[4..] && f != "" { assert f[|f| - 1] == base[|base| - 1]; }
  }

  /** With no artist in front of the title, none is found in front of what is rebuilt. */
  lemma NoneLeadsTheRebuilt(v: Vocabulary, artist: string, title: string)
    requires PlainArtist(artist) && PlainTitle(title) && SplitFront(title, Some(artist)) == NoArtist
    ensures !LedByAny(Fold(Rebuilt(v, title)), Forms(artist))
  {
    hide Rebuilt, BareKey, Forms, Fold, LeadsBy, SpacedArticle, Tidy;
    FormsAreFree(artist);
    forall f | f in Forms(artist) ensures !Leads(Fold(Rebuilt(v, title)), f) {
      FormIsTidy(artist, f);
      assert SepFree(f) && !Leads(Fold(title), f);
      FormLeadsNothing(v, title, f);
    }
  }

  lemma FormLeadsNothing(v: Vocabulary, title: string, f: string)
    requires PlainTitle(title) && SepFree(f) && (Tidy(f) || !Unopened(f)) && !Leads(Fold(title), f)
    ensures !Leads(Fold(Rebuilt(v, title)), f)
  {
    hide Rebuilt, Fold, LeadsBy, Leads, Tidy, SepFree;
    var rebuilt := Fold(Rebuilt(v, title));
    RebuiltHead(v, title);
    FoldHead(Rebuilt(v, title));
    FoldHead(title);
    if Leads(rebuilt, f) {
      var j := LeadsAt(rebuilt, f);
      RebuiltUnopened(v, title);
      LeadsUnopened(rebuilt, f, j);
      RebuiltLeads(v, title, f, j);
      var k: nat :| k < |Fold(title)| && LeadsBy(Fold(title), f, k);
      LedAt(Fold(title), f, k);
    }
  }

  lemma LeadsUnopened(x: string, form: string, j: nat)
    requires LeadsBy(x, form, j) && Unopened(x)
    ensures Unopened(form)
  {
    assert forall k :: 0 <= k < |form| ==> form[k] == x[..|form|][k] == x[k];
  }

  /** The artist comes off once: what stands behind it is keyed with no artist in view, so a
      name that begins with the artist's own keeps it. */
  lemma TheArtistComesOffOnce(v: Vocabulary, title: string, artist: Option<string>)
    requires SplitFront(title, artist).Located?
    requires var body := title[SplitFront(title, artist).end..]; Rebuilt(v, Unfenced(v, body, 0)) != ""
    ensures RecordKey(v, title, artist) == RecordKey(v, title[SplitFront(title, artist).end..], None)
  {
    hide Rebuilt, Unfenced, Key;
  }

  /** Writing the artist in front never changes the record. */
  lemma ArtistInFrontNeverChangesTheRecord(v: Vocabulary, artist: string, title: string)
    requires PlainArtist(artist) && PlainTitle(title)
    requires SplitFront(title, Some(artist)) == NoArtist
    ensures RecordKey(v, Fronted(artist, title), Some(artist)) == RecordKey(v, title, Some(artist))
  {
    NoneLeadsTheRebuilt(v, artist, title);
    RecordKeptUnlessLed(v, artist, title);
  }
}
