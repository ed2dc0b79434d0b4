/**
 A bracketed aside that only names a pressing does not change the record: appending one
 to a title leaves `RecordKey` as it was, and exactly when it can fail to.
 */
module RecordAside {
  import opened Options
  import opened Text
  import opened Pattern
  import opened TitleKey
  import opened RecordKeys

  /** The text ends in neither a space nor a separator. */
  predicate EndsFirm(s: string) { s != "" && !IsSpace(s[|s| - 1]) && !IsSep(s[|s| - 1]) }

  predicate IsCloser(c: char) { c == ')' || c == ']' || c == '}' }

  predicate SepFree(s: string) { forall i :: 0 <= i < |s| ==> !IsSep(s[i]) }

  /** Every opening bracket has its own closer somewhere behind it. */
  predicate Closed(s: string) {
    forall i :: 0 <= i < |s| && CloserOf(s[i]).Some? ==> exists j :: i < j < |s| && s[j] == CloserOf(s[i]).value
  }

  predicate IsOpener(c: char) { c == '(' || c == '[' || c == '{' }

  function Closer(c: char): char
    requires IsOpener(c)
  {
    if c == '(' then ')' else if c == '[' then ']' else '}'
  }

  /** The aside in brackets of any of the three kinds. */
  function FencedIn(open: char, aside: string): string
    requires IsOpener(open)
  {
    [open] + aside + [Closer(open)]
  }

  function Fenced(aside: string): string { "(" + aside + ")" }

  lemma InParentheses(aside: string)
    ensures FencedIn('(', aside) == Fenced(aside)
  {
  }

  // ----- Separators see nothing of the aside -----

  lemma {:induction false} SkipIs(s: string, i: nat, j: nat)
    requires i <= j < |s| && !IsSpace(s[j]) && forall k :: i <= k < j ==> IsSpace(s[k])
    ensures Skip(s, i) == j
  {
  }

  lemma SepEndSame(s: string, more: string, i: nat)
    requires EndsFirm(s) && SepFree(more) && i <= |s|
    ensures SepEnd(s + more, i) == SepEnd(s, i)
    ensures SepEnd(s, i).Some? ==> SepEnd(s, i).value < |s|
  {
    var t := s + more;
    var j := Skip(s, i);
    if i < |s| {
      assert j < |s|;
      SkipIs(t, i, j);
      if IsSep(s[j]) { SkipIs(t, j + 1, Skip(s, j + 1)); }
    } else {
      NoSepEnd(s, more, i);
    }
  }

  lemma NoSepEnd(s: string, more: string, i: nat)
    requires SepFree(more) && |s| <= i <= |s + more|
    ensures SepEnd(s + more, i) == None
  {
    var j := Skip(s + more, i);
    if j < |s + more| { assert (s + more)[j] == more[j - |s|]; }
  }

  lemma {:induction false} NoBoundary(s: string, more: string, wanted: string, i: nat)
    requires SepFree(more) && |s| <= i <= |s + more|
    ensures Boundary(s + more, wanted, i) == None
    decreases |s + more| - i
  {
    if i < |s + more| {
      NoSepEnd(s, more, i);
      NoBoundary(s, more, wanted, i + 1);
    }
  }

  lemma LastIsInk(s: string, e: nat)
    requires EndsFirm(s) && e < |s|
    ensures HasInk(s[e..])
  {
    assert s[e..][|s| - e - 1] == s[|s| - 1];
  }

  lemma InkBehind(s: string, more: string, e: nat)
    requires EndsFirm(s) && e < |s|
    ensures HasInk(s[e..]) && HasInk((s + more)[e..])
  {
    LastIsInk(s, e);
    assert (s + more)[e..] == s[e..] + more;
    InkBefore(s[e..], more);
  }

  lemma {:induction false} BoundarySame(s: string, more: string, wanted: string, i: nat)
    requires EndsFirm(s) && SepFree(more) && i <= |s|
    ensures Boundary(s + more, wanted, i) == Boundary(s, wanted, i)
    decreases |s| - i
  {
    hide SepEnd, EndsFirm, SepFree, BareKey, HasInk;
    var t := s + more;
    if i == |s| {
      NoBoundary(s, more, wanted, i);
    } else {
      SepEndSame(s, more, i);
      var sep := SepEnd(s, i);
      if sep.None? {
        BoundarySame(s, more, wanted, i + 1);
      } else {
        assert t[..i] == s[..i];
        InkBehind(s, more, sep.value);
        BoundarySame(s, more, wanted, sep.value);
      }
    }
  }

  lemma InkBefore(s: string, more: string)
    requires HasInk(s)
    ensures HasInk(s + more)
  {
    var i :| 0 <= i < |s| && !IsSpace(s[i]);
    assert (s + more)[i] == s[i];
  }

  lemma LeadHereSame(s: string, more: string, form: string, k: nat)
    requires EndsFirm(s) && SepFree(more) && k <= |s|
    ensures var here := if StartsAt(s, k, form) then SepEnd(s, k + |form|) else None;
            && here == (if StartsAt(s + more, k, form) then SepEnd(s + more, k + |form|) else None)
            && (here.Some? ==> here.value < |s|)
  {
    hide SepEnd, EndsFirm, SepFree;
    var t := s + more;
    if k + |form| <= |s| {
      assert t[k..k + |form|] == s[k..k + |form|];
      SepEndSame(s, more, k + |form|);
    } else if k + |form| <= |t| {
      NoSepEnd(s, more, k + |form|);
    }
  }

  lemma {:induction false} LeadFromSame(s: string, more: string, form: string, k: nat)
    requires EndsFirm(s) && SepFree(more) && k <= |s|
    ensures LeadFrom(s + more, form, k) == LeadFrom(s, form, k)
    ensures LeadFrom(s, form, k).Some? ==> LeadFrom(s, form, k).value < |s|
  {
    hide SepEnd, EndsFirm, SepFree, StartsAt;
    LeadHereSame(s, more, form, k);
    if k > 0 { LeadFromSame(s, more, form, k - 1); }
  }

  lemma LeadsSame(s: string, more: string, form: string)
    requires EndsFirm(s) && SepFree(more)
    ensures LeadEnd(s + more, form) == LeadEnd(s, form)
    ensures LeadEnd(s, form).Some? ==> LeadEnd(s, form).value < |s|
    ensures Leads(s + more, form) == Leads(s, form)
  {
    SkipIs(s + more, 0, Skip(s, 0));
    hide LeadFrom, EndsFirm, SepFree, HasInk, Skip;
    LeadFromSame(s, more, form, Skip(s, 0));
    var e := LeadEnd(s, form);
    if e.Some? { InkBehind(s, more, e.value); }
  }

  lemma {:induction false} StripFormsSame(s: string, more: string, forms: seq<string>)
    requires EndsFirm(s) && SepFree(more)
    ensures StripForms(s + more, forms) == StripForms(s, forms) + more
  {
    if forms != [] {
      LeadsSame(s, more, forms[0]);
      if Leads(s, forms[0]) {
        var e := LeadEnd(s, forms[0]).value;
        assert (s + more)[e..] == s[e..] + more;
      } else {
        StripFormsSame(s, more, forms[1..]);
      }
    }
  }

  lemma {:induction false} FoldSepFree(s: string)
    requires SepFree(s)
    ensures SepFree(Fold(s))
  {
    if s != "" { FoldSepFree(s[1..]); }
  }

  lemma SplitFrontSame(title: string, more: string, artist: Option<string>)
    requires EndsFirm(title) && EndsFirm(Fold(title)) && SepFree(more)
    ensures SplitFront(title + more, artist) == SplitFront(title, artist)
  {
    if artist.Some? && artist.value != "" && BareKey(artist.value) != "" {
      BoundarySame(title, more, BareKey(artist.value), 0);
      var forms := Forms(artist.value);
      FoldAppend(title, more);
      FoldSepFree(more);
      forall f ensures Leads(Fold(title + more), f) == Leads(Fold(title), f) {
        LeadsSame(Fold(title), Fold(more), f);
      }
    }
  }

  // ----- The fence is dropped, and leaves a space -----

  lemma {:induction false} FindSame(s: string, more: string, c: char, i: nat)
    requires i <= |s| && exists j :: i <= j < |s| && s[j] == c
    ensures Find(s, c, i).Some? && Find(s + more, c, i) == Find(s, c, i)
    decreases |s| - i
  {
    if s[i] != c { FindSame(s, more, c, i + 1); }
  }

  lemma BracketSame(s: string, more: string, i: nat)
    requires i < |s| && Closed(s)
    ensures BracketEnd(s + more, i) == BracketEnd(s, i)
    ensures BracketEnd(s, i).Some? && !IsCloser(s[|s| - 1]) ==> BracketEnd(s, i).value < |s| - 1
  {
    if CloserOf(s[i]).Some? { FindSame(s, more, CloserOf(s[i]).value, i + 1); }
  }

  lemma {:induction false} FindIs(s: string, c: char, i: nat, j: nat)
    requires i <= j < |s| && s[j] == c && forall k :: i <= k < j ==> s[k] != c
    ensures Find(s, c, i) == Some(j)
  {
  }

  lemma FenceIs(t: string, at: nat, open: char, aside: string)
    requires IsOpener(open) && at <= |t| && t[at..] == " " + FencedIn(open, aside) && Closer(open) !in aside
    ensures at + 1 < |t| && BracketEnd(t, at) == None
    ensures BracketEnd(t, at + 1) == Some(|t| - 1) && t[at + 1..|t|] == FencedIn(open, aside)
  {
    var tail := t[at..];
    assert t[at] == tail[0] && t[at + 1] == tail[1] && t[|t| - 1] == tail[|t| - 1 - at];
    forall k | at + 2 <= k < |t| - 1 ensures t[k] != Closer(open) {
      assert t[k] == tail[k - at] == aside[k - at - 2];
    }
    FindIs(t, Closer(open), at + 2, |t| - 1);
  }

  lemma FenceOut(v: Vocabulary, t: string, at: nat, open: char, aside: string)
    requires IsOpener(open) && at <= |t| && t[at..] == " " + FencedIn(open, aside)
    requires Closer(open) !in aside && IsVariant(v, FencedIn(open, aside))
    ensures Unfenced(v, t, at) == " "
  {
    hide IsVariant, BracketEnd;
    FenceIs(t, at, open, aside);
    assert Unfenced(v, t, |t|) == "";
    assert Unfenced(v, t, at + 1) == "" + "";
    assert Unfenced(v, t, at) == [t[at]] + Unfenced(v, t, at + 1);
    assert t[at] == t[at..][0];
  }

  /** One turn of the substitution. */
  lemma UnfencedTurn(v: Vocabulary, s: string, i: nat)
    requires i < |s|
    ensures var close := BracketEnd(s, i);
            if close.None? then Unfenced(v, s, i) == [s[i]] + Unfenced(v, s, i + 1)
            else Unfenced(v, s, i) == (if IsVariant(v, s[i..close.value + 1]) then "" else s[i..close.value + 1]) +
                                      Unfenced(v, s, close.value + 1)
    ensures Unfenced(v, s, |s|) == ""
  {
    hide IsVariant, BracketEnd;
  }

  lemma {:induction false} FenceDropped(v: Vocabulary, s: string, open: char, aside: string, i: nat)
    requires i <= |s| && Closed(s) && IsOpener(open) && Closer(open) !in aside && IsVariant(v, FencedIn(open, aside))
    ensures Unfenced(v, s + (" " + FencedIn(open, aside)), i) == Unfenced(v, s, i) + " "
    decreases |s| - i
  {
    hide IsVariant, Closed, BracketEnd, FencedIn, Unfenced;
    var more := " " + FencedIn(open, aside);
    var t := s + more;
    if i == |s| {
      assert t[i..] == more;
      FenceOut(v, t, i, open, aside);
      NothingUnfenced(v, s);
    } else {
      BracketSame(s, more, i);
      UnfencedTurn(v, s, i);
      UnfencedTurn(v, t, i);
      var close := BracketEnd(s, i);
      if close.Some? {
        var end := close.value + 1;
        assert t[i..end] == s[i..end];
        FenceDropped(v, s, open, aside, end);
        Regroup(if IsVariant(v, s[i..end]) then "" else s[i..end], Unfenced(v, s, end), " ");
      } else {
        FenceDropped(v, s, open, aside, i + 1);
        Regroup([s[i]], Unfenced(v, s, i + 1), " ");
      }
    }
  }

  lemma NothingUnfenced(v: Vocabulary, s: string)
    ensures Unfenced(v, s, |s|) == "" && "" + " " == " "
  {
  }

  /** The last character outside every bracket is never dropped. */
  lemma {:induction false} UnfencedEndsFirm(v: Vocabulary, s: string, i: nat)
    requires EndsFirm(s) && !IsCloser(s[|s| - 1]) && Closed(s) && i < |s|
    ensures EndsFirm(Unfenced(v, s, i))
    decreases |s| - i
  {
    hide IsVariant, Closed, BracketEnd;
    BracketSame(s, "", i);
    var close := BracketEnd(s, i);
    if close.Some? {
      var end := close.value + 1;
      UnfencedEndsFirm(v, s, end);
      EndsAfter(if IsVariant(v, s[i..end]) then "" else s[i..end], Unfenced(v, s, end));
    } else if i + 1 < |s| {
      UnfencedEndsFirm(v, s, i + 1);
      EndsAfter([s[i]], Unfenced(v, s, i + 1));
    } else {
      assert Unfenced(v, s, i + 1) == "";
    }
  }

  lemma EndsAfter(s: string, t: string)
    requires EndsFirm(t)
    ensures EndsFirm(s + t)
  {
  }

  lemma {:induction false} Unbracketed(v: Vocabulary, s: string, i: nat)
    requires i <= |s| && forall k :: i <= k < |s| ==> CloserOf(s[k]).None?
    ensures Unfenced(v, s, i) == s[i..]
    decreases |s| - i
  {
    if i < |s| {
      Unbracketed(v, s, i + 1);
      assert s[i..] == [s[i]] + s[i + 1..];
    }
  }

  lemma ClosedFrom(s: string, e: nat)
    requires Closed(s) && e <= |s|
    ensures Closed(s[e..])
  {
    var r := s[e..];
    forall i | 0 <= i < |r| && CloserOf(r[i]).Some? ensures exists j :: i < j < |r| && r[j] == CloserOf(r[i]).value {
      var j :| i + e < j < |s| && s[j] == CloserOf(s[i + e]).value;
      assert r[j - e] == s[j];
    }
  }

  // ----- A trailing space changes nothing -----

  predicate AllTight(phrases: seq<Regex>) {
    forall p :: p in phrases ==> Tight(p) && Required(p)
  }

  lemma SizeWords()
    ensures SolidWords(OneOf(["7", "10", "12"]))
    ensures SolidWords(OneOf(["\"", "''", RIGHT_DOUBLE_QUOTE, "inch", "in.", "in"]))
  {
  }

  lemma SizeIsRequired()
    ensures Required(SIZE) && Required(SIZE[3..]) && Required(SIZE[5..])
  {
    assert Consumes(SIZE[1]);
    assert Consumes(SIZE[3..][2]);
    assert Consumes(SIZE[5..][0]);
  }

  lemma SizeIsSolid()
    ensures forall k :: 0 <= k < |SIZE| ==> SolidWords(SIZE[k])
  {
    SizeWords();
    assert SolidWords(DASH) && SolidWords(Edge) && SolidWords(Spaces) && SolidWords(Break);
    hide SolidWords;
  }

  lemma SizeSpaces(k: nat)
    requires k < |SIZE| && SIZE[k].Spaces?
    ensures Required(SIZE[k + 1..])
  {
    SizeIsRequired();
    hide Required;
    assert k == 2 || k == 4;
  }

  lemma SizeIsTight()
    ensures Tight(SIZE) && Required(SIZE)
  {
    SizeIsSolid();
    SizeIsRequired();
    hide SolidWords, Required, SIZE;
    forall k | 0 <= k < |SIZE| && SIZE[k].Spaces? ensures Required(SIZE[k + 1..]) { SizeSpaces(k); }
  }

  lemma GramWords()
    ensures SolidWords(OneOf(["g", "gm", "gr", "gram", "grams"]))
  {
  }

  lemma WeightIsRequired()
    ensures Required(WEIGHT) && Required(WEIGHT[5..]) && Required(WEIGHT[7..])
  {
    assert Consumes(WEIGHT[1]);
    assert Consumes(WEIGHT[5..][2]);
    assert Consumes(WEIGHT[7..][0]);
  }

  lemma WeightIsSolid()
    ensures forall k :: 0 <= k < |WEIGHT| ==> SolidWords(WEIGHT[k])
  {
    GramWords();
    assert SolidWords(DASH) && SolidWords(Edge) && SolidWords(Spaces) && SolidWords(Digit) && SolidWords(PerhapsDigit);
    hide SolidWords;
  }

  lemma WeightSpaces(k: nat)
    requires k < |WEIGHT| && WEIGHT[k].Spaces?
    ensures Required(WEIGHT[k + 1..])
  {
    WeightIsRequired();
    hide Required;
    assert k == 4 || k == 6;
  }

  lemma WeightIsTight()
    ensures Tight(WEIGHT) && Required(WEIGHT)
  {
    WeightIsSolid();
    WeightIsRequired();
    hide SolidWords, Required, WEIGHT;
    forall k | 0 <= k < |WEIGHT| && WEIGHT[k].Spaces? ensures Required(WEIGHT[k + 1..]) { WeightSpaces(k); }
  }

  lemma CountWords()
    ensures SolidWords(OneOf(["lp", "ep"])) && SolidWords(Perhaps(["x"])) && SolidWords(Perhaps(["s"]))
  {
  }

  lemma CountIsRequired()
    ensures Required(COUNT) && Required(COUNT[3..]) && Required(COUNT[5..]) && Required(COUNT[7..]) && Required(COUNT[9..])
  {
    assert Consumes(COUNT[1]);
    assert Consumes(COUNT[3..][6]);
    assert Consumes(COUNT[5..][4]);
    assert Consumes(COUNT[7..][2]);
    assert Consumes(COUNT[9..][0]);
  }

  lemma CountIsSolid()
    ensures forall k :: 0 <= k < |COUNT| ==> SolidWords(COUNT[k])
  {
    CountWords();
    assert SolidWords(DASH) && SolidWords(Edge) && SolidWords(Spaces) && SolidWords(Digit);
    hide SolidWords;
  }

  lemma CountSpaces(k: nat)
    requires k < |COUNT| && COUNT[k].Spaces?
    ensures Required(COUNT[k + 1..])
  {
    CountIsRequired();
    hide Required;
    assert k == 2 || k == 4 || k == 6 || k == 8;
  }

  lemma CountIsTight()
    ensures Tight(COUNT) && Required(COUNT)
  {
    CountIsSolid();
    CountIsRequired();
    hide SolidWords, Required, COUNT;
    forall k | 0 <= k < |COUNT| && COUNT[k].Spaces? ensures Required(COUNT[k + 1..]) { CountSpaces(k); }
  }

  lemma BoxWords()
    ensures SolidWords(OneOf(["box"])) && SolidWords(OneOf(["set"]))
  {
  }

  lemma BoxSetIsRequired()
    ensures Required(BOX_SET) && Required(BOX_SET[3..]) && Required(BOX_SET[5..])
  {
    assert Consumes(BOX_SET[1]);
    assert Consumes(BOX_SET[3..][2]);
    assert Consumes(BOX_SET[5..][0]);
  }

  lemma BoxSetIsSolid()
    ensures forall k :: 0 <= k < |BOX_SET| ==> SolidWords(BOX_SET[k])
  {
    BoxWords();
    assert SolidWords(DASH) && SolidWords(Edge) && SolidWords(Spaces);
    hide SolidWords;
  }

  lemma BoxSetSpaces(k: nat)
    requires k < |BOX_SET| && BOX_SET[k].Spaces?
    ensures Required(BOX_SET[k + 1..])
  {
    BoxSetIsRequired();
    hide Required;
    assert k == 2 || k == 4;
  }

  lemma BoxSetIsTight()
    ensures Tight(BOX_SET) && Required(BOX_SET)
  {
    BoxSetIsSolid();
    BoxSetIsRequired();
    hide SolidWords, Required, BOX_SET;
    forall k | 0 <= k < |BOX_SET| && BOX_SET[k].Spaces? ensures Required(BOX_SET[k + 1..]) { BoxSetSpaces(k); }
  }

  lemma PrefixWords()
    ensures SolidWords(OneOf(["re", "pre"])) && SolidWords(OneOf(["-"]))
    ensures SolidWords(Ahead(["issue", "press", "master", "order"]))
  {
  }

  lemma HyphenatedIsTight()
    ensures Tight(HYPHENATED) && Required(HYPHENATED)
  {
    PrefixWords();
    assert SolidWords(Edge);
    hide SolidWords;
    assert Consumes(HYPHENATED[1]);
  }

  lemma PhrasesAreTight()
    ensures AllTight(PHRASES + [BOX_SET]) && AllTight(PHRASES)
  {
    hide Tight, Required, SIZE, WEIGHT, COUNT, BOX_SET;
    SizeIsTight();
    WeightIsTight();
    CountIsTight();
    BoxSetIsTight();
  }

  lemma {:induction false} CleanedTrailing(phrases: seq<Regex>, s: string)
    requires AllTight(phrases)
    ensures Cleaned(phrases, s + " ") == Cleaned(phrases, s) + " "
  {
    if phrases != [] {
      assert phrases[0] in phrases;
      SubTrailingSpace(phrases[0], false, s, 0);
      CleanedTrailing(phrases[1..], Sub(phrases[0], false, s, 0));
    }
  }

  lemma FoldSpace()
    ensures Fold(" ") == " "
  {
    assert Fold(" ") == [Lower(' ')] + Fold(" "[1..]);
  }

  lemma VariantTrailing(v: Vocabulary, s: string)
    ensures IsVariant(v, s + " ") == IsVariant(v, s)
  {
    hide Cleaned;
    FoldAppend(s, " ");
    FoldSpace();
    PhrasesAreTight();
    CleanedTrailing(PHRASES + [BOX_SET], Fold(s));
    WordsThen(Fold(s), ' ');
    WordsThen(Cleaned(PHRASES + [BOX_SET], Fold(s)), ' ');
  }

  lemma SepEndTrailing(s: string, i: nat)
    requires i <= |s|
    ensures SepEnd(s + " ", i) == match SepEnd(s, i)
                                  case None => None
                                  case Some(e) => Some(if e == |s| then |s| + 1 else e)
    ensures SepEnd(s + " ", |s| + 1) == None
  {
    var t := s + " ";
    var j := Skip(s, i);
    SkipTrailing(s, i);
    if j < |s| && IsSep(s[j]) { SkipTrailing(s, j + 1); }
  }

  lemma SkipTrailing(s: string, i: nat)
    requires i <= |s|
    ensures Skip(s + " ", i) == if Skip(s, i) == |s| then |s| + 1 else Skip(s, i)
  {
    var t := s + " ";
    var j := Skip(s, i);
    if j < |s| {
      SkipIs(t, i, j);
    } else {
      assert forall m :: i <= m < |s| ==> t[m] == s[m] && IsSpace(t[m]);
    }
  }

  lemma {:induction false} LeadFromTrailing(s: string, form: string, k: nat)
    requires k <= |s|
    ensures LeadFrom(s + " ", form, k) == match LeadFrom(s, form, k)
                                          case None => None
                                          case Some(e) => Some(if e == |s| then |s| + 1 else e)
  {
    hide SepEnd;
    var t := s + " ";
    if k + |form| <= |s| {
      assert t[k..k + |form|] == s[k..k + |form|];
      SepEndTrailing(s, k + |form|);
    } else if k + |form| == |t| {
      SepEndTrailing(s, |s|);
    }
    if k > 0 { LeadFromTrailing(s, form, k - 1); }
  }

  lemma LeadEndTrailing(s: string, form: string)
    ensures LeadEnd(s + " ", form) == match LeadEnd(s, form)
                                      case None => None
                                      case Some(e) => Some(if e == |s| then |s| + 1 else e)
  {
    SkipTrailing(s, 0);
    SepEndTrailing(s, |s|);
    hide SepEnd, Skip;
    LeadFromTrailing(s, form, |s|);
    LeadFromTrailing(s, form, Skip(s, 0));
    LeadFromEnd(s, form);
  }

  /** Nothing leads behind nothing but spaces. */
  lemma LeadFromEnd(s: string, form: string)
    ensures LeadFrom(s + " ", form, |s| + 1) == LeadFrom(s + " ", form, |s|)
  {
    SepEndTrailing(s, |s|);
    hide SepEnd;
    if StartsAt(s + " ", |s| + 1, form) { assert form == ""; }
  }

  lemma LeadsTrailing(s: string, form: string)
    ensures Leads(s + " ", form) == Leads(s, form)
    ensures Leads(s, form) ==> LeadEnd(s + " ", form) == LeadEnd(s, form) && LeadEnd(s, form).value < |s|
  {
    LeadEndTrailing(s, form);
    hide LeadEnd;
    var e := LeadEnd(s, form);
    if e.Some? && e.value < |s| {
      assert (s + " ")[e.value..] == s[e.value..] + " ";
      InkTrailing(s[e.value..]);
    }
  }

  lemma InkTrailing(s: string)
    ensures HasInk(s + " ") <==> HasInk(s)
  {
    if HasInk(s) { InkBefore(s, " "); }
    if HasInk(s + " ") {
      var i :| 0 <= i < |s + " "| && !IsSpace((s + " ")[i]);
      assert (s + " ")[i] == s[i];
    }
  }

  lemma {:induction false} StripFormsTrailing(s: string, forms: seq<string>)
    ensures StripForms(s + " ", forms) == StripForms(s, forms) + " "
  {
    hide Leads, LeadEnd;
    if forms != [] {
      LeadsTrailing(s, forms[0]);
      if Leads(s, forms[0]) {
        LeadsAreEnds(s, forms[0]);
        var e := LeadEnd(s, forms[0]).value;
        assert (s + " ")[e..] == s[e..] + " ";
      } else {
        StripFormsTrailing(s, forms[1..]);
      }
    }
  }

  lemma LeadsAreEnds(s: string, form: string)
    ensures Leads(s, form) ==> LeadEnd(s, form).Some?
  {
  }

  lemma KeyTrailing(v: Vocabulary, s: string, artist: Option<string>)
    ensures Key(v, s + " ", artist, true) == Key(v, s, artist, true)
  {
    hide Cleaned, Sub, Joined, Surviving, Replaced, StripForms;
    var folded := WithoutArtist(Fold(s), artist);
    FoldAppend(s, " ");
    FoldSpace();
    if artist.Some? { StripFormsTrailing(Fold(s), Forms(artist.value)); }
    assert WithoutArtist(Fold(s + " "), artist) == folded + " ";
    PhrasesAreTight();
    HyphenatedIsTight();
    SubTrailingSpace(HYPHENATED, true, folded, 0);
    ReplacedAppend(Sub(HYPHENATED, true, folded, 0), " ", '&', " and ");
    Unreplaced(" ", '&', " and ");
    var prepared := Prepared(s, artist, true);
    assert Prepared(s + " ", artist, true) == prepared + " ";
    CleanedTrailing(PHRASES, prepared);
    WordsThen(prepared, ' ');
    WordsThen(Cleaned(PHRASES, prepared), ' ');
    StripTrailing(Cleaned(PHRASES, prepared), ' ');
    StripTrailing(s, ' ');
  }

  lemma SegmentEndSame(s: string, i: nat)
    requires EndsFirm(s) && i <= |s|
    ensures SegmentEnd(s + " ", i) == SegmentEnd(s, i)
    ensures SegmentEnd(s, i).Some? ==> SegmentEnd(s, i).value < |s|
  {
    var t := s + " ";
    var j := Skip(s, i);
    if i < |s| {
      assert j < |s|;
      SkipIs(t, i, j);
      if j + 1 < |s| { SkipIs(t, j + 1, Skip(s, j + 1)); }
    } else {
      assert Skip(t, |t|) == |t|;
    }
  }

  /** The space joins the last piece. */
  function Spaced(parts: seq<string>): seq<string>
    requires parts != []
  {
    parts[..|parts| - 1] + [parts[|parts| - 1] + " "]
  }

  lemma {:induction false} SegmentsTrailing(s: string, start: nat, i: nat)
    requires EndsFirm(s) && start <= i <= |s| && start < |s|
    ensures Segments(s + " ", start, i) == Spaced(Segments(s, start, i))
    ensures EndsFirm(Segments(s, start, i)[|Segments(s, start, i)| - 1])
    decreases |s| - i
  {
    hide SegmentEnd;
    var t := s + " ";
    SegmentEndSame(s, i);
    if i == |s| {
      assert t[start..] == s[start..] + " ";
      assert Segments(t, start, |t|) == [t[start..]];
      assert s[start..][|s| - start - 1] == s[|s| - 1];
    } else {
      var e := SegmentEnd(s, i);
      if e.Some? {
        SegmentsTrailing(s, e.value, e.value);
        var rest := Segments(s, e.value, e.value);
        assert t[start..i] == s[start..i];
        assert Spaced([s[start..i]] + rest) == [s[start..i]] + Spaced(rest);
      } else {
        SegmentsTrailing(s, start, i + 1);
      }
    }
  }

  /** The spaced last piece is dropped exactly when it is without its space. */
  lemma {:induction false} TrimmedTrailing(v: Vocabulary, parts: seq<string>)
    requires parts != []
    ensures Trimmed(v, Spaced(parts)) ==
            if |Trimmed(v, parts)| == |parts| then Spaced(parts) else Trimmed(v, parts)
  {
    hide *;
    SpacedIs(parts);
    TrimmedIs(v, parts);
    TrimmedIs(v, Spaced(parts));
    VariantTrailing(v, parts[|parts| - 1]);
  }

  /** One turn of the popping loop. */
  lemma TrimmedIs(v: Vocabulary, parts: seq<string>)
    requires parts != []
    ensures if |parts| > 1 && IsVariant(v, parts[|parts| - 1])
            then Trimmed(v, parts) == Trimmed(v, parts[..|parts| - 1]) && |Trimmed(v, parts)| < |parts|
            else Trimmed(v, parts) == parts
  {
    hide IsVariant;
  }

  lemma SpacedIs(parts: seq<string>)
    requires parts != []
    ensures |Spaced(parts)| == |parts| && Spaced(parts)[..|parts| - 1] == parts[..|parts| - 1]
    ensures Spaced(parts)[|parts| - 1] == parts[|parts| - 1] + " "
  {
  }

  lemma RejoinedTrailing(parts: seq<string>)
    requires parts != [] && HasInk(parts[|parts| - 1])
    ensures Rejoined(Spaced(parts)) == Rejoined(parts) + " "
  {
    hide Spaced, HasInk, Inked;
    SpacedIs(parts);
    var n := |parts| - 1;
    var spaced := Spaced(parts);
    InkTrailing(parts[n]);
    if Inked(parts[..n]) { Regroup(Rejoined(parts[..n]) + " - ", parts[n], " "); }
  }

  lemma RebuiltTrailing(v: Vocabulary, s: string)
    requires EndsFirm(s)
    ensures Rebuilt(v, s + " ") == Rebuilt(v, s)
  {
    hide *;
    var parts := Segments(s, 0, 0);
    PiecesTrailing(s);
    TrimmedTrailing(v, parts);
    RejoinedTrailing(parts);
    StripTrailing(Rejoined(parts), ' ');
    SpaceIsSpace();
    RebuiltIs(v, s);
    RebuiltIs(v, s + " ");
    KeptWhole(v, parts);
  }

  lemma KeptWhole(v: Vocabulary, parts: seq<string>)
    requires parts != []
    ensures |Trimmed(v, parts)| == |parts| ==> Trimmed(v, parts) == parts
  {
    hide IsVariant;
  }

  lemma SpaceIsSpace()
    ensures IsSpace(' ') && [' '] == " "
  {
  }

  lemma RebuiltIs(v: Vocabulary, s: string)
    ensures Segments(s, 0, 0) != [] && Rebuilt(v, s) == Strip(Rejoined(Trimmed(v, Segments(s, 0, 0))))
  {
    hide Segments, Trimmed, Rejoined, Strip;
  }

  lemma PiecesTrailing(s: string)
    requires EndsFirm(s)
    ensures var parts := Segments(s, 0, 0);
            parts != [] && Segments(s + " ", 0, 0) == Spaced(parts) && HasInk(parts[|parts| - 1])
  {
    hide Segments, Spaced;
    SegmentsTrailing(s, 0, 0);
    var parts := Segments(s, 0, 0);
    var last := parts[|parts| - 1];
    LastIsInk(last, 0);
    assert last[0..] == last;
  }

  // ----- The law -----

  /** A title with its brackets closed that ends outside them, in neither a space nor a
      separator, apostrophes aside. */
  predicate Complete(title: string) {
    EndsFirm(title) && EndsFirm(Fold(title)) && !IsCloser(title[|title| - 1]) && Closed(title)
  }

  /** The aside names only a pressing, has no separator and does not close its brackets. */
  predicate Appendable(v: Vocabulary, title: string, open: char, aside: string) {
    && Complete(title) && IsOpener(open) && Closer(open) !in aside
    && SepFree(aside) && IsVariant(v, FencedIn(open, aside))
  }

  function WithAsideIn(title: string, open: char, aside: string): string
    requires IsOpener(open)
  {
    title + (" " + FencedIn(open, aside))
  }

  function WithAside(title: string, aside: string): string { title + (" " + Fenced(aside)) }

  /** Something of the title is left when its fenced wording is gone, or its artist could
      not be located, in which case nothing behind a separator is dropped. */
  predicate LeavesAName(v: Vocabulary, title: string, artist: Option<string>) {
    var front := SplitFront(title, artist);
    front.Unlocated? || Rebuilt(v, Unfenced(v, Body(title, front), 0)) != ""
  }

  lemma BodyIs(title: string, artist: Option<string>)
    requires Complete(title)
    ensures var body := Body(title, SplitFront(title, artist));
            EndsFirm(body) && !IsCloser(body[|body| - 1]) && Closed(body)
  {
    hide SplitFront;
    var front := SplitFront(title, artist);
    if front.Located? { ClosedFrom(title, front.end); }
  }

  lemma AsideIsSeen(v: Vocabulary, title: string, open: char, aside: string, artist: Option<string>)
    requires Appendable(v, title, open, aside)
    ensures var front := SplitFront(title, artist);
            var stripped := Unfenced(v, Body(title, front), 0);
            && SplitFront(WithAsideIn(title, open, aside), artist) == front
            && Unfenced(v, Body(WithAsideIn(title, open, aside), front), 0) == stripped + " "
            && EndsFirm(stripped)
  {
    hide IsVariant, SplitFront, Unfenced, Closed;
    var more := " " + FencedIn(open, aside);
    var front := SplitFront(title, artist);
    SplitFrontSame(title, more, artist);
    BodyIs(title, artist);
    var body := Body(title, front);
    assert Body(title + more, front) == body + more;
    FenceDropped(v, body, open, aside, 0);
    UnfencedEndsFirm(v, body, 0);
  }

  /** Appending an accepted aside never changes the record of a title that leaves a name. */
  lemma AsideNeverChangesTheRecord(v: Vocabulary, title: string, open: char, aside: string, artist: Option<string>)
    requires Appendable(v, title, open, aside) && LeavesAName(v, title, artist)
    ensures RecordKey(v, WithAsideIn(title, open, aside), artist) == RecordKey(v, title, artist)
  {
    hide SplitFront, Unfenced, Rebuilt, Key, Appendable;
    AsideIsSeen(v, title, open, aside, artist);
    var front := SplitFront(title, artist);
    var stripped := Unfenced(v, Body(title, front), 0);
    if front.Unlocated? {
      assert stripped[0..] == stripped;
      LastIsInk(stripped, 0);
      InkBefore(stripped, " ");
      KeyTrailing(v, stripped, artist);
    } else {
      RebuiltTrailing(v, stripped);
    }
  }
}
