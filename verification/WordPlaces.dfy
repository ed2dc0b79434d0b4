/**
 Where a word stands in a text, and which words a phrase of `backend/title_key.py` can
 take out of one.
 */
module WordPlaces {
  import opened Options
  import opened Text
  import opened Pattern
  import opened TitleKey

  /** A whole run of letters and digits begins at `at`. */
  predicate Placed(s: string, at: nat, w: string) {
    && w != "" && AllAlnum(w) && StartsAt(s, at, w)
    && (at > 0 ==> !IsAlnum(s[at - 1])) && (at + |w| < |s| ==> !IsAlnum(s[at + |w|]))
  }

  /** Nothing in front that the first word behind would join. */
  predicate Parted(s: string) { s == "" || !IsAlnum(s[|s| - 1]) }

  lemma Slice(s: string, i: nat, j: nat)
    requires i <= j <= |s|
    ensures |s[i..j]| == j - i && forall k :: i <= k < j ==> s[k] == s[i..j][k - i]
  {
  }

  lemma {:induction false} ScanPlaces(s: string)
    ensures |Scan(s).current| <= |s| && s[|s| - |Scan(s).current|..] == Scan(s).current && AllAlnum(Scan(s).current)
    ensures Parted(s[..|s| - |Scan(s).current|])
    ensures forall w :: w in Scan(s).words ==> exists at: nat :: at + |w| < |s| && Placed(s, at, w)
  {
    hide Placed;
    if s != "" {
      var t, c := s[..|s| - 1], s[|s| - 1];
      ScanPlaces(t);
      var open := Scan(t).current;
      assert s == t + [c];
      forall w | w in Scan(s).words ensures exists at: nat :: at + |w| < |s| && Placed(s, at, w) {
        if w in Scan(t).words {
          var at: nat :| at + |w| < |t| && Placed(t, at, w);
          PlacedWithin(t, [c], at, w);
        } else {
          OpenIsPlaced(t, c, open);
        }
      }
      if IsAlnum(c) { assert s[..|s| - |open + [c]|] == t[..|t| - |open|]; }
    }
  }

  lemma OpenIsPlaced(t: string, c: char, open: string)
    requires open != "" && AllAlnum(open) && |open| <= |t| && t[|t| - |open|..] == open && !IsAlnum(c)
    requires Parted(t[..|t| - |open|])
    ensures Placed(t + [c], |t| - |open|, open)
  {
    var at := |t| - |open|;
    assert (t + [c])[at..at + |open|] == open;
    Slice(t, 0, at);
  }

  lemma PlacedWithin(s: string, more: string, at: nat, w: string)
    requires Placed(s, at, w) && at + |w| < |s|
    ensures Placed(s + more, at, w)
  {
    assert (s + more)[at..at + |w|] == s[at..at + |w|];
  }

  lemma WordIsPlaced(s: string, w: string) returns (at: nat)
    requires w in Words(s)
    ensures Placed(s, at, w)
  {
    ScanPlaces(s);
    ScanIsWords(s);
    if w in Scan(s).words {
      at :| at + |w| < |s| && Placed(s, at, w);
    } else {
      at := |s| - |w|;
    }
  }

  lemma {:induction false} WordsStay(s: string, t: string)
    ensures forall w :: w in Scan(s).words ==> w in Scan(s + t).words
  {
    if t == "" {
      assert s + t == s;
    } else {
      var u := t[..|t| - 1];
      WordsStay(s, u);
      assert (s + t)[..|s + t| - 1] == s + u;
    }
  }

  lemma PlacedIsWord(s: string, at: nat, w: string)
    requires Placed(s, at, w)
    ensures w in Words(s)
  {
    hide Scan;
    var a, b := s[..at], s[at + |w|..];
    assert s == a + w + b;
    NothingOpen(a);
    ScanAppend(a, w);
    assert Scan(a + w).current == w;
    if b == "" {
      assert a + w + b == a + w;
    } else {
      WordsThen(a + w, b[0]);
      WordsStay(a + w + [b[0]], b[1..]);
      assert a + w + [b[0]] + b[1..] == s;
    }
  }

  lemma NothingOpen(s: string)
    requires Parted(s)
    ensures Scan(s).current == ""
  {
    if s != "" {
      assert s == s[..|s| - 1] + [s[|s| - 1]];
      WordsThen(s[..|s| - 1], s[|s| - 1]);
    }
  }

  /** What stands behind a gap keeps its words. */
  lemma WordsBehind(s: string, t: string, w: string)
    requires Parted(s) && w in Words(t)
    ensures w in Words(s + t)
  {
    var at := WordIsPlaced(t, w);
    var u := s + t;
    assert u[|s| + at..|s| + at + |w|] == t[at..at + |w|];
    assert Placed(u, |s| + at, w);
    PlacedIsWord(u, |s| + at, w);
  }

  /** White space in front of a text is part of no word. */
  lemma WordsPastSpace(t: string, j: nat, w: string)
    requires j <= |t| && AllSpace(t[..j]) && w in Words(t)
    ensures w in Words(t[j..])
  {
    var at := WordIsPlaced(t, w);
    Slice(t, at, at + |w|);
    Slice(t, 0, j);
    assert IsAlnum(t[at]);
    assert t[j..][at - j..at - j + |w|] == t[at..at + |w|];
    PlacedIsWord(t[j..], at - j, w);
  }

  /** Nor is white space behind it. */
  lemma WordsBeforeSpace(t: string, space: string, w: string)
    requires AllSpace(space) && w in Words(t + space)
    ensures w in Words(t)
  {
    var u := t + space;
    var at := WordIsPlaced(u, w);
    var last := at + |w| - 1;
    Slice(u, at, at + |w|);
    assert IsAlnum(u[last]);
    assert forall k :: |t| <= k < |u| ==> u[k] == space[k - |t|];
    assert t[at..at + |w|] == u[at..at + |w|];
    PlacedIsWord(t, at, w);
  }

  // ----- Which words a phrase can take -----

  /** The letters and digits a word of a pattern begins with. */
  function Head(x: string): (h: string)
    ensures |h| <= |x| && h == x[..|h|] && AllAlnum(h) && (|h| < |x| ==> !IsAlnum(x[|h|]))
  {
    if x == "" || !IsAlnum(x[0]) then ""
    else
      var rest := Head(x[1..]);
      assert x[..1 + |rest|] == [x[0]] + x[1..][..|rest|];
      [x[0]] + rest
  }

  /** No letter or digit stands behind something that is neither. */
  predicate HeadFirst(x: string) { forall i :: 0 <= i < |x| && IsAlnum(x[i]) ==> i < |Head(x)| }

  /** The pattern can take the word: its atoms, in order, come to the word, or to more than
      all that is left of it. */
  predicate Spells(p: Regex, w: string)
    decreases |p|, 0
  {
    w == "" ||
    (p != [] &&
     match p[0]
     case OneOf(words) => SpellsWith(words, p[1..], w)
     case Perhaps(words) => SpellsWith(words, p[1..], w) || Spells(p[1..], w)
     case Digit => IsDigit(w[0]) && Spells(p[1..], w[1..])
     case PerhapsDigit => (IsDigit(w[0]) && Spells(p[1..], w[1..])) || Spells(p[1..], w)
     case _ => Spells(p[1..], w))
  }

  predicate SpellsWith(words: seq<string>, rest: Regex, w: string)
    decreases |rest|, |words| + 1
  {
    words != [] &&
    (Head(words[0]) == w || (words[0] <= w && Spells(rest, w[|words[0]|..])) || SpellsWith(words[1..], rest, w))
  }

  /** Some part of the pattern, from its front or from inside it, can. */
  predicate CanTake(p: Regex, w: string) { exists k :: 0 <= k <= |p| && Spells(p[k..], w) }

  /** In every word of the pattern the letters and digits stand in front. */
  predicate HeadsFirst(p: Regex) {
    forall k :: 0 <= k < |p| && (p[k].OneOf? || p[k].Perhaps?) ==> forall x :: x in p[k].words ==> HeadFirst(x)
  }

  lemma HeadIs(x: string, n: nat)
    requires n <= |x| && AllAlnum(x[..n]) && (n < |x| ==> !IsAlnum(x[n]))
    ensures Head(x) == x[..n]
  {
    var h := Head(x);
    Slice(x, 0, n);
    Slice(x, 0, |h|);
    assert forall k :: 0 <= k < |h| ==> x[k] == h[k];
  }

  lemma AlnumInFront(x: string)
    requires HeadFirst(x)
    ensures forall j, k :: 0 <= j <= k < |x| && IsAlnum(x[k]) ==> IsAlnum(x[j])
  {
    Slice(x, 0, |Head(x)|);
  }

  predicate RunTo(s: string, i: nat, end: nat) {
    i <= end <= |s| && AllAlnum(s[i..end]) && (end < |s| ==> !IsAlnum(s[end]))
  }

  /** A match that runs from inside a run of letters and digits to its end or beyond has
      taken the rest of it. */
  lemma {:induction false} TakesTheRest(p: Regex, s: string, i: nat, end: nat)
    requires HeadsFirst(p) && RunTo(s, i, end)
    requires Match(p, s, i).Some? && Match(p, s, i).value >= end
    ensures Spells(p, s[i..end])
    decreases |p|, |s| - i, 0
  {
    hide HeadFirst;
    if i < end && p != [] {
      var rest := p[1..];
      assert HeadsFirst(rest);
      assert IsAlnum(s[i..end][0]);
      match p[0]
      case OneOf(words) => TakesByAWord(words, rest, s, i, end);
      case Perhaps(words) =>
        if FirstOf(words, rest, s, i).Some? { TakesByAWord(words, rest, s, i, end); } else { TakesTheRest(rest, s, i, end); }
      case Digit => TakesADigit(rest, s, i, end);
      case PerhapsDigit =>
        if DigitAt(s, i) && Match(rest, s, i + 1).Some? { TakesADigit(rest, s, i, end); } else { TakesTheRest(rest, s, i, end); }
      case _ => TakesTheRest(rest, s, i, end);
    }
  }

  lemma {:induction false} TakesADigit(rest: Regex, s: string, i: nat, end: nat)
    requires HeadsFirst(rest) && RunTo(s, i, end) && i < end
    requires DigitAt(s, i) && Match(rest, s, i + 1).Some? && Match(rest, s, i + 1).value >= end
    ensures IsDigit(s[i..end][0]) && Spells(rest, s[i..end][1..])
    decreases |rest|, |s| - i, 1
  {
    assert s[i..end][1..] == s[i + 1..end];
    TakesTheRest(rest, s, i + 1, end);
  }

  lemma {:induction false} TakesByAWord(words: seq<string>, rest: Regex, s: string, i: nat, end: nat)
    requires HeadsFirst(rest) && RunTo(s, i, end)
    requires FirstOf(words, rest, s, i).Some? && FirstOf(words, rest, s, i).value >= end
    ensures SpellsWith(words, rest, s[i..end])
    decreases |rest|, |s| - i, |words| + 1
  {
    hide HeadFirst, Head, AllAlnum, Spells;
    var x := words[0];
    if StartsAt(s, i, x) && Match(rest, s, i + |x|).Some? {
      if i + |x| <= end {
        WordInside(s, i, x, end);
        TakesTheRest(rest, s, i + |x|, end);
      } else {
        WordAcross(s, i, x, end);
      }
    } else {
      TakesByAWord(words[1..], rest, s, i, end);
    }
  }

  lemma WordInside(s: string, i: nat, x: string, end: nat)
    requires StartsAt(s, i, x) && i + |x| <= end <= |s| && AllAlnum(s[i..end])
    ensures x <= s[i..end] && s[i..end][|x|..] == s[i + |x|..end] && AllAlnum(s[i + |x|..end])
  {
    assert s[i..end][..|x|] == x;
  }

  lemma WordAcross(s: string, i: nat, x: string, end: nat)
    requires StartsAt(s, i, x) && i <= end < i + |x| && AllAlnum(s[i..end]) && !IsAlnum(s[end])
    ensures Head(x) == s[i..end]
  {
    assert x[..end - i] == s[i..end] && x[end - i] == s[end];
    HeadIs(x, end - i);
  }

  lemma CanTakeMore(p: Regex, w: string)
    requires p != [] && CanTake(p[1..], w)
    ensures CanTake(p, w)
  {
    var k :| 0 <= k <= |p[1..]| && Spells(p[1..][k..], w);
    assert p[1..][k..] == p[k + 1..];
  }

  lemma CanTakeHere(p: Regex, w: string)
    requires Spells(p, w)
    ensures CanTake(p, w)
  {
    assert p[0..] == p;
  }

  /** And one that runs over the whole of it from further left can take it. */
  lemma {:induction false} TakesTheWhole(p: Regex, s: string, i: nat, at: nat, end: nat)
    requires HeadsFirst(p) && i <= at < end && RunTo(s, at, end)
    requires at > 0 ==> !IsAlnum(s[at - 1])
    requires Match(p, s, i).Some? && Match(p, s, i).value >= end
    ensures CanTake(p, s[at..end])
    decreases |p|, |s| - i, 0
  {
    hide CanTake, HeadFirst, Spells;
    var w := s[at..end];
    if i == at {
      TakesTheRest(p, s, i, end);
      CanTakeHere(p, w);
    } else if p != [] {
      var rest := p[1..];
      assert HeadsFirst(rest);
      var through := p[0].Spaces? && IsSpace(s[i]) && Match(p, s, i + 1).Some?;
      match p[0] {
        case OneOf(words) => WholeByAWord(words, rest, s, i, at, end);
        case Perhaps(words) =>
          if FirstOf(words, rest, s, i).Some? { WholeByAWord(words, rest, s, i, at, end); } else { TakesTheWhole(rest, s, i, at, end); }
        case Digit => TakesTheWhole(rest, s, i + 1, at, end);
        case PerhapsDigit =>
          if DigitAt(s, i) && Match(rest, s, i + 1).Some? { TakesTheWhole(rest, s, i + 1, at, end); }
          else { TakesTheWhole(rest, s, i, at, end); }
        case Spaces =>
          if through { TakesTheWhole(p, s, i + 1, at, end); } else { TakesTheWhole(rest, s, i, at, end); }
        case _ => TakesTheWhole(rest, s, i, at, end);
      }
      if !through { CanTakeMore(p, w); }
    }
  }

  lemma {:induction false} WholeByAWord(words: seq<string>, rest: Regex, s: string, i: nat, at: nat, end: nat)
    requires HeadsFirst(rest) && i < at < end && RunTo(s, at, end)
    requires !IsAlnum(s[at - 1])
    requires forall x :: x in words ==> HeadFirst(x)
    requires FirstOf(words, rest, s, i).Some? && FirstOf(words, rest, s, i).value >= end
    ensures CanTake(rest, s[at..end])
    decreases |rest|, |s| - i, |words| + 1
  {
    hide CanTake, HeadFirst, HeadsFirst;
    var x := words[0];
    assert x in words;
    Slice(s, at, end);
    assert IsAlnum(s[at]);
    if StartsAt(s, i, x) && Match(rest, s, i + |x|).Some? {
      Slice(s, i, i + |x|);
      AlnumInFront(x);
      TakesTheWhole(rest, s, i + |x|, at, end);
    } else {
      WholeByAWord(words[1..], rest, s, i, at, end);
    }
  }

  /** The pattern begins at an edge of a word and ends at one, or before something that is
      in none. */
  predicate Bounded(p: Regex) { p != [] && p[0].Edge? && (p[|p| - 1].Edge? || p[|p| - 1].Break?) }

  lemma {:induction false} EndsAtAnEdge(p: Regex, s: string, i: nat)
    requires p != [] && (p[|p| - 1].Edge? || p[|p| - 1].Break?) && i <= |s|
    requires Match(p, s, i).Some?
    ensures AtEdge(s, Match(p, s, i).value) || !WordAt(s, Match(p, s, i).value)
    decreases |p|, |s| - i, 0
  {
    var rest := p[1..];
    if rest != [] {
      assert rest[|rest| - 1] == p[|p| - 1];
      match p[0]
      case OneOf(words) => WordEndsAtAnEdge(words, rest, s, i);
      case Perhaps(words) =>
        if FirstOf(words, rest, s, i).Some? { WordEndsAtAnEdge(words, rest, s, i); } else { EndsAtAnEdge(rest, s, i); }
      case Digit => EndsAtAnEdge(rest, s, i + 1);
      case PerhapsDigit =>
        if DigitAt(s, i) && Match(rest, s, i + 1).Some? { EndsAtAnEdge(rest, s, i + 1); } else { EndsAtAnEdge(rest, s, i); }
      case Spaces =>
        if i < |s| && IsSpace(s[i]) && Match(p, s, i + 1).Some? { EndsAtAnEdge(p, s, i + 1); } else { EndsAtAnEdge(rest, s, i); }
      case _ => EndsAtAnEdge(rest, s, i);
    } else {
      assert Match([], s, i) == Some(i);
    }
  }

  lemma {:induction false} WordEndsAtAnEdge(words: seq<string>, rest: Regex, s: string, i: nat)
    requires rest != [] && (rest[|rest| - 1].Edge? || rest[|rest| - 1].Break?) && i <= |s|
    requires FirstOf(words, rest, s, i).Some?
    ensures AtEdge(s, FirstOf(words, rest, s, i).value) || !WordAt(s, FirstOf(words, rest, s, i).value)
    decreases |rest|, |s| - i, |words| + 1
  {
    if StartsAt(s, i, words[0]) && Match(rest, s, i + |words[0]|).Some? {
      EndsAtAnEdge(rest, s, i + |words[0]|);
    } else {
      WordEndsAtAnEdge(words[1..], rest, s, i);
    }
  }

  /** A match stops in front of a word it cannot build. */
  lemma StopsAtTheWord(p: Regex, s: string, i: nat, at: nat, w: string)
    requires Bounded(p) && HeadsFirst(p) && Placed(s, at, w) && !CanTake(p, w) && i < at + |w|
    ensures Match(p, s, i).Some? ==> i <= at && Match(p, s, i).value <= at
  {
    hide Match, CanTake, HeadsFirst;
    var m, end := Match(p, s, i), at + |w|;
    PlacedAlnum(s, at, w);
    BeginsAtAnEdge(p, s, i);
    if m.Some? {
      EndsAtAnEdge(p, s, i);
      if i <= at && m.value >= end { TakesTheWhole(p, s, i, at, end); }
    }
  }

  lemma PlacedAlnum(s: string, at: nat, w: string)
    requires Placed(s, at, w)
    ensures s[at..at + |w|] == w && forall j :: at <= j < at + |w| ==> WordAt(s, j)
  {
    Slice(s, at, at + |w|);
  }

  lemma BeginsAtAnEdge(p: Regex, s: string, i: nat)
    requires Bounded(p) && i <= |s|
    ensures Match(p, s, i).Some? ==> AtEdge(s, i)
  {
  }

  /** The rest of such a word is copied. */
  lemma {:induction false} SubCopies(p: Regex, s: string, i: nat, at: nat, w: string)
    requires Bounded(p) && HeadsFirst(p) && Placed(s, at, w) && !CanTake(p, w)
    requires at <= i <= at + |w|
    ensures Sub(p, false, s, i) == s[i..at + |w|] + Sub(p, false, s, at + |w|)
    decreases |s| - i
  {
    hide Match, HeadsFirst, CanTake, Bounded;
    var end := at + |w|;
    if i < end {
      StopsAtTheWord(p, s, i, at, w);
      SubCopies(p, s, i + 1, at, w);
      assert s[i..end] == [s[i]] + s[i + 1..end];
    } else {
      assert s[i..end] == "";
    }
  }

  /** So a word the phrase cannot build is a word of what it leaves. */
  lemma {:induction false} SubReaches(p: Regex, s: string, i: nat, at: nat, w: string) returns (front: string)
    requires Bounded(p) && HeadsFirst(p) && Placed(s, at, w) && !CanTake(p, w) && i <= at
    ensures Sub(p, false, s, i) == front + Sub(p, false, s, at)
    ensures if i == at then front == "" else front != "" && Parted(front)
    decreases |s| - i
  {
    hide Match, HeadsFirst, CanTake, Bounded;
    if i == at {
      front := "";
    } else {
      StopsAtTheWord(p, s, i, at, w);
      var m := Match(p, s, i);
      if m.Some? && m.value > i {
        var rest := SubReaches(p, s, m.value, at, w);
        front := " " + rest;
      } else {
        var rest := SubReaches(p, s, i + 1, at, w);
        front := [s[i]] + rest;
      }
    }
  }

  lemma SubPastTheWord(p: Regex, s: string, i: nat)
    requires i <= |s| && (i < |s| ==> !IsAlnum(s[i]))
    ensures Sub(p, false, s, i) == "" || !IsAlnum(Sub(p, false, s, i)[0])
  {
  }

  lemma SubKeepsWord(p: Regex, s: string, w: string)
    requires Bounded(p) && HeadsFirst(p) && w in Words(s) && !CanTake(p, w)
    ensures w in Words(Sub(p, false, s, 0))
  {
    hide Match, HeadsFirst, CanTake, Bounded, Words;
    var at := WordIsPlaced(s, w);
    var end := at + |w|;
    var front := SubReaches(p, s, 0, at, w);
    SubCopies(p, s, at, at, w);
    SubPastTheWord(p, s, end);
    var back := Sub(p, false, s, end);
    assert s[at..end] == w;
    var t := front + (w + back);
    assert Sub(p, false, s, 0) == t;
    assert t[|front|..|front| + |w|] == w;
    assert Placed(t, |front|, w);
    PlacedIsWord(t, |front|, w);
  }
}
