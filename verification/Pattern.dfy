/**
 The regular expressions of `backend/title_key.py` that remove or join phrases, as data,
 and a backtracking matcher that tries alternatives and repetitions in the order Python's
 does. Every one of them is a sequence of these atoms.
 */
module Pattern {
  import opened Text
  import opened Options

  datatype Atom =
    | OneOf(words: seq<string>)     // (?:a|b|c)
    | Perhaps(words: seq<string>)   // (?:a|b|c)?
    | Digit                         // \d
    | PerhapsDigit                  // \d?
    | Spaces                        // \s*
    | Edge                          // \b
    | Break                         // (?=\s|$|\W)
    | Ahead(words: seq<string>)     // (?=a|b|c)

  type Regex = seq<Atom>

  predicate WordAt(s: string, i: int) { 0 <= i < |s| && IsWord(s[i]) }

  predicate DigitAt(s: string, i: nat) { i < |s| && IsDigit(s[i]) }

  predicate AtEdge(s: string, i: nat) { WordAt(s, i - 1) != WordAt(s, i) }

  /** Where the first match of `p` from `i` ends, if there is one. */
  function Match(p: Regex, s: string, i: nat): (e: Option<nat>)
    requires i <= |s|
    ensures e.Some? ==> i <= e.value <= |s|
    decreases |p|, |s| - i, 0
  {
    if p == [] then Some(i)
    else
      var rest := p[1..];
      match p[0]
      case OneOf(words) => FirstOf(words, rest, s, i)
      case Perhaps(words) =>
        var taken := FirstOf(words, rest, s, i);
        if taken.Some? then taken else Match(rest, s, i)
      case Digit => if DigitAt(s, i) then Match(rest, s, i + 1) else None
      case PerhapsDigit =>
        var taken := if DigitAt(s, i) then Match(rest, s, i + 1) else None;
        if taken.Some? then taken else Match(rest, s, i)
      case Spaces =>
        var longer := if i < |s| && IsSpace(s[i]) then Match(p, s, i + 1) else None;
        if longer.Some? then longer else Match(rest, s, i)
      case Edge => if AtEdge(s, i) then Match(rest, s, i) else None
      case Break => if !WordAt(s, i) then Match(rest, s, i) else None
      case Ahead(words) => if exists w :: w in words && StartsAt(s, i, w) then Match(rest, s, i) else None
  }

  function FirstOf(words: seq<string>, rest: Regex, s: string, i: nat): (e: Option<nat>)
    requires i <= |s|
    ensures e.Some? ==> i <= e.value <= |s|
    decreases |rest|, |s| - i, |words| + 1
  {
    if words == [] then None
    else
      var taken := if StartsAt(s, i, words[0]) then Match(rest, s, i + |words[0]|) else None;
      if taken.Some? then taken else FirstOf(words[1..], rest, s, i)
  }

  /** `p.sub` from `i` on. A match becomes a space, or keeps all but its last character. */
  function Sub(p: Regex, keep: bool, s: string, i: nat): string
    requires i <= |s|
    decreases |s| - i
  {
    if i == |s| then ""
    else
      var m := Match(p, s, i);
      if m.Some? && m.value > i then (if keep then s[i..m.value - 1] else " ") + Sub(p, keep, s, m.value)
      else [s[i]] + Sub(p, keep, s, i + 1)
  }

  // ----- What a match is -----

  predicate SpacesTo(s: string, i: nat, j: nat) { i <= j <= |s| && forall k :: i <= k < j ==> IsSpace(s[k]) }

  /** The text from `i` to `e` is of the pattern's form, whichever way it is read. */
  ghost predicate Derives(p: Regex, s: string, i: nat, e: nat)
    decreases |p|
  {
    if p == [] then i == e
    else
      var rest := p[1..];
      match p[0]
      case OneOf(words) => exists w :: w in words && StartsAt(s, i, w) && Derives(rest, s, i + |w|, e)
      case Perhaps(words) =>
        Derives(rest, s, i, e) || exists w :: w in words && StartsAt(s, i, w) && Derives(rest, s, i + |w|, e)
      case Digit => DigitAt(s, i) && Derives(rest, s, i + 1, e)
      case PerhapsDigit => Derives(rest, s, i, e) || (DigitAt(s, i) && Derives(rest, s, i + 1, e))
      case Spaces => exists j: nat :: SpacesTo(s, i, j) && Derives(rest, s, j, e)
      case Edge => AtEdge(s, i) && Derives(rest, s, i, e)
      case Break => !WordAt(s, i) && Derives(rest, s, i, e)
      case Ahead(words) => (exists w :: w in words && StartsAt(s, i, w)) && Derives(rest, s, i, e)
  }

  /** What the matcher finds is a match. */
  lemma {:induction false} MatchDerives(p: Regex, s: string, i: nat)
    requires i <= |s| && Match(p, s, i).Some?
    ensures Derives(p, s, i, Match(p, s, i).value)
    decreases |p|, |s| - i, 0
  {
    if p != [] {
      var rest := p[1..];
      match p[0]
      case OneOf(words) => FirstDerives(words, words, rest, s, i);
      case Perhaps(words) =>
        if FirstOf(words, rest, s, i).Some? { FirstDerives(words, words, rest, s, i); } else { MatchDerives(rest, s, i); }
      case Digit => MatchDerives(rest, s, i + 1);
      case PerhapsDigit =>
        if DigitAt(s, i) && Match(rest, s, i + 1).Some? { MatchDerives(rest, s, i + 1); } else { MatchDerives(rest, s, i); }
      case Spaces =>
        if i < |s| && IsSpace(s[i]) && Match(p, s, i + 1).Some? {
          MatchDerives(p, s, i + 1);
          var j: nat :| SpacesTo(s, i + 1, j) && Derives(rest, s, j, Match(p, s, i).value);
          assert SpacesTo(s, i, j);
        } else {
          MatchDerives(rest, s, i);
          assert SpacesTo(s, i, i);
        }
      case _ => MatchDerives(rest, s, i);
    }
  }

  lemma {:induction false} FirstDerives(words: seq<string>, all: seq<string>, rest: Regex, s: string, i: nat)
    requires i <= |s| && FirstOf(words, rest, s, i).Some? && forall w :: w in words ==> w in all
    ensures exists w :: w in all && StartsAt(s, i, w) && Derives(rest, s, i + |w|, FirstOf(words, rest, s, i).value)
    decreases |rest|, |s| - i, |words| + 1
  {
    var w := words[0];
    assert w in all;
    if StartsAt(s, i, w) && Match(rest, s, i + |w|).Some? {
      MatchDerives(rest, s, i + |w|);
    } else {
      FirstDerives(words[1..], all, rest, s, i);
    }
  }

  /** And it finds one wherever there is one. */
  lemma {:induction false} MatchFinds(p: Regex, s: string, i: nat, e: nat)
    requires i <= |s| && Derives(p, s, i, e)
    ensures Match(p, s, i).Some?
    decreases |p|, |s| - i, 0
  {
    if p != [] {
      var rest := p[1..];
      match p[0]
      case OneOf(words) =>
        var w :| w in words && StartsAt(s, i, w) && Derives(rest, s, i + |w|, e);
        FirstFinds(words, w, rest, s, i, e);
      case Perhaps(words) =>
        if Derives(rest, s, i, e) {
          MatchFinds(rest, s, i, e);
        } else {
          var w :| w in words && StartsAt(s, i, w) && Derives(rest, s, i + |w|, e);
          FirstFinds(words, w, rest, s, i, e);
        }
      case Digit => MatchFinds(rest, s, i + 1, e);
      case PerhapsDigit =>
        if Derives(rest, s, i, e) { MatchFinds(rest, s, i, e); } else { MatchFinds(rest, s, i + 1, e); }
      case Spaces =>
        var j: nat :| SpacesTo(s, i, j) && Derives(rest, s, j, e);
        if i == j {
          MatchFinds(rest, s, i, e);
        } else {
          assert SpacesTo(s, i + 1, j);
          assert Derives(p, s, i + 1, e);
          MatchFinds(p, s, i + 1, e);
        }
      case _ => MatchFinds(rest, s, i, e);
    }
  }

  lemma {:induction false} FirstFinds(words: seq<string>, w: string, rest: Regex, s: string, i: nat, e: nat)
    requires w in words && StartsAt(s, i, w) && Derives(rest, s, i + |w|, e)
    ensures FirstOf(words, rest, s, i).Some?
    decreases |rest|, |s| - i, |words| + 1
  {
    if words[0] == w { MatchFinds(rest, s, i + |w|, e); } else { FirstFinds(words[1..], w, rest, s, i, e); }
  }

  // ----- What a trailing space cannot change -----

  predicate Solid(w: string) { w != "" && forall i :: 0 <= i < |w| ==> !IsSpace(w[i]) }

  predicate SolidWords(a: Atom) {
    (a.OneOf? || a.Perhaps? || a.Ahead?) ==> forall w :: w in a.words ==> Solid(w)
  }

  predicate Required(p: Regex) { exists k :: 0 <= k < |p| && Consumes(p[k]) }

  predicate Consumes(a: Atom) { a.OneOf? || a.Digit? }

  /** Words hold no space, and no pattern ends in spaces. */
  predicate Tight(p: Regex) {
    && (forall k :: 0 <= k < |p| ==> SolidWords(p[k]))
    && (forall k :: 0 <= k < |p| && p[k].Spaces? ==> Required(p[k + 1..]))
  }

  lemma TightTail(p: Regex)
    requires p != [] && Tight(p)
    ensures Tight(p[1..])
  {
    forall k | 0 <= k < |p[1..]| && p[1..][k].Spaces? ensures Required(p[1..][k + 1..]) {
      assert p[1..][k + 1..] == p[k + 2..];
    }
  }

  /** Nothing that has to be consumed matches at the end of the text. */
  lemma {:induction false} NothingAtTheEnd(p: Regex, s: string)
    requires Required(p) && forall k :: 0 <= k < |p| ==> SolidWords(p[k])
    ensures Match(p, s, |s|) == None
    decreases |p|
  {
    var k :| 0 <= k < |p| && Consumes(p[k]);
    if p[0].OneOf? {
      NoWordAtTheEnd(p[0].words, p[1..], s);
    } else if !p[0].Digit? {
      assert Consumes(p[1..][k - 1]);
      NothingAtTheEnd(p[1..], s);
      if p[0].Perhaps? { NoWordAtTheEnd(p[0].words, p[1..], s); }
    }
  }

  lemma {:induction false} NoWordAtTheEnd(words: seq<string>, rest: Regex, s: string)
    requires forall w :: w in words ==> Solid(w)
    ensures FirstOf(words, rest, s, |s|) == None
  {
    if words != [] {
      assert Solid(words[0]);
      NoWordAtTheEnd(words[1..], rest, s);
    }
  }

  lemma StartsBefore(s: string, c: char, i: nat, w: string)
    requires i <= |s| && c !in w && w != ""
    ensures StartsAt(s + [c], i, w) <==> StartsAt(s, i, w)
  {
    var t := s + [c];
    if i + |w| == |t| {
      assert t[i..i + |w|][|w| - 1] == c;
      assert w[|w| - 1] in w;
    }
    if i + |w| <= |s| { assert t[i..i + |w|] == s[i..i + |w|]; }
  }

  lemma SameEdges(s: string, i: nat)
    requires i <= |s|
    ensures AtEdge(s + " ", i) == AtEdge(s, i) && WordAt(s + " ", i) == WordAt(s, i)
  {
  }

  /** A trailing space changes no match. */
  lemma {:induction false} TrailingSpace(p: Regex, s: string, i: nat)
    requires Tight(p) && i <= |s|
    ensures Match(p, s + " ", i) == Match(p, s, i)
    decreases |p|, |s| - i, 0
  {
    var t := s + " ";
    if p != [] {
      var rest := p[1..];
      TightTail(p);
      SameEdges(s, i);
      assert SolidWords(p[0]);
      match p[0]
      case OneOf(words) => TrailingSpaceFirst(words, rest, s, i);
      case Perhaps(words) =>
        TrailingSpaceFirst(words, rest, s, i);
        TrailingSpace(rest, s, i);
      case Digit => if i < |s| { TrailingSpace(rest, s, i + 1); }
      case PerhapsDigit =>
        TrailingSpace(rest, s, i);
        if i < |s| { TrailingSpace(rest, s, i + 1); }
      case Spaces =>
        TrailingSpace(rest, s, i);
        if i < |s| {
          TrailingSpace(p, s, i + 1);
        } else {
          assert p[0 + 1..] == rest;
          NothingAtTheEnd(rest, t);
          assert Match(p, t, |t|) == None;
        }
      case Ahead(words) =>
        TrailingSpace(rest, s, i);
        forall w | w in words ensures StartsAt(t, i, w) <==> StartsAt(s, i, w) { StartsBefore(s, ' ', i, w); }
      case _ => TrailingSpace(rest, s, i);
    }
  }

  lemma {:induction false} TrailingSpaceFirst(words: seq<string>, rest: Regex, s: string, i: nat)
    requires Tight(rest) && i <= |s| && forall w :: w in words ==> Solid(w)
    ensures FirstOf(words, rest, s + " ", i) == FirstOf(words, rest, s, i)
    decreases |rest|, |s| - i, |words| + 1
  {
    if words != [] {
      var w := words[0];
      assert Solid(w);
      StartsBefore(s, ' ', i, w);
      if StartsAt(s, i, w) { TrailingSpace(rest, s, i + |w|); }
      TrailingSpaceFirst(words[1..], rest, s, i);
    }
  }

  lemma {:induction false} SubTrailingSpace(p: Regex, keep: bool, s: string, i: nat)
    requires Tight(p) && Required(p) && i <= |s|
    ensures Sub(p, keep, s + " ", i) == Sub(p, keep, s, i) + " "
    decreases |s| - i
  {
    hide Match, Tight, Required, SolidWords;
    var t := s + " ";
    TrailingSpace(p, s, i);
    if i == |s| {
      TightWords(p);
      NothingAtTheEnd(p, s);
      assert t[i] == ' ' && Sub(p, keep, t, |t|) == "";
    } else {
      var m := Match(p, s, i);
      assert t[i] == s[i];
      if m.Some? && m.value > i {
        SubTrailingSpace(p, keep, s, m.value);
        assert t[i..m.value - 1] == s[i..m.value - 1];
      } else {
        SubTrailingSpace(p, keep, s, i + 1);
      }
    }
  }

  lemma TightWords(p: Regex)
    requires Tight(p)
    ensures forall k :: 0 <= k < |p| ==> SolidWords(p[k])
  {
  }

  // ----- What a fence keeps out -----

  /** `c` occurs in no word of the pattern. */
  predicate Avoids(p: Regex, c: char) {
    !IsSpace(c) && !IsDigit(c) && forall k :: 0 <= k < |p| && (p[k].OneOf? || p[k].Perhaps?) ==> forall w :: w in p[k].words ==> c !in w
  }

  /** A match does not run over a character the pattern never consumes. */
  lemma {:induction false} StopsBefore(p: Regex, c: char, s: string, i: nat, k: nat)
    requires Avoids(p, c) && i <= k < |s| && s[k] == c
    ensures Match(p, s, i).Some? ==> Match(p, s, i).value <= k
    decreases |p|, |s| - i, 0
  {
    if p != [] {
      var rest := p[1..];
      assert Avoids(rest, c);
      match p[0]
      case OneOf(words) => StopsBeforeFirst(words, rest, c, s, i, k);
      case Perhaps(words) =>
        StopsBeforeFirst(words, rest, c, s, i, k);
        StopsBefore(rest, c, s, i, k);
      case Digit => if i < k { StopsBefore(rest, c, s, i + 1, k); }
      case PerhapsDigit =>
        StopsBefore(rest, c, s, i, k);
        if i < k { StopsBefore(rest, c, s, i + 1, k); }
      case Spaces =>
        StopsBefore(rest, c, s, i, k);
        if i < k && IsSpace(s[i]) { StopsBefore(p, c, s, i + 1, k); }
      case _ => StopsBefore(rest, c, s, i, k);
    }
  }

  lemma {:induction false} StopsBeforeFirst(words: seq<string>, rest: Regex, c: char, s: string, i: nat, k: nat)
    requires Avoids(rest, c) && i <= k < |s| && s[k] == c && forall w :: w in words ==> c !in w
    ensures FirstOf(words, rest, s, i).Some? ==> FirstOf(words, rest, s, i).value <= k
    decreases |rest|, |s| - i, |words| + 1
  {
    if words != [] {
      var w := words[0];
      if StartsAt(s, i, w) {
        assert w in words && c !in w;
        assert forall j :: i <= j < i + |w| ==> s[j] == w[j - i];
        StopsBefore(rest, c, s, i + |w|, k);
      }
      StopsBeforeFirst(words[1..], rest, c, s, i, k);
    }
  }

  /** So what stands behind such a character, and holds no match, comes out unchanged. */
  lemma {:induction false} SubKeepsTail(p: Regex, keep: bool, c: char, s: string, i: nat, k: nat) returns (head: string)
    requires Avoids(p, c) && i <= k < |s| && s[k] == c
    requires forall j: nat :: k <= j < |s| ==> Match(p, s, j) == None
    ensures Sub(p, keep, s, i) == head + s[k..]
    decreases |s| - i
  {
    hide Match, Avoids;
    if i == k {
      head := "";
      SubNothing(p, keep, s, k);
      assert "" + s[k..] == s[k..];
    } else {
      StopsBefore(p, c, s, i, k);
      var m := Match(p, s, i);
      if m.Some? && m.value > i {
        var rest := SubKeepsTail(p, keep, c, s, m.value, k);
        var first := if keep then s[i..m.value - 1] else " ";
        head := first + rest;
        Regroup(first, rest, s[k..]);
      } else {
        var rest := SubKeepsTail(p, keep, c, s, i + 1, k);
        head := [s[i]] + rest;
        Regroup([s[i]], rest, s[k..]);
      }
    }
  }

  lemma {:induction false} SubNothing(p: Regex, keep: bool, s: string, k: nat)
    requires k <= |s| && forall j: nat :: k <= j < |s| ==> Match(p, s, j) == None
    ensures Sub(p, keep, s, k) == s[k..]
    decreases |s| - k
  {
    if k < |s| {
      SubNothing(p, keep, s, k + 1);
      assert s[k..] == [s[k]] + s[k + 1..];
    }
  }

  // ----- What a pattern cannot do without -----

  /** The text lacks some character of `w`. */
  predicate Lacks(s: string, w: string) { exists c :: c in w && c !in s }

  /** A pattern matches only text that could hold one of the words each group asks for. */
  lemma {:induction false} NoneWithoutItsWords(p: Regex, k: nat, s: string, i: nat)
    requires k < |p| && p[k].OneOf? && i <= |s| && forall w :: w in p[k].words ==> Lacks(s, w)
    ensures Match(p, s, i) == None
    decreases |p|, |s| - i, 0
  {
    var rest := p[1..];
    if k == 0 {
      NoneStartsWithout(p[0].words, rest, s, i);
    } else {
      assert rest[k - 1] == p[k];
      NoneWithoutItsWords(rest, k - 1, s, i);
      match p[0]
      case OneOf(words) => NoneWithoutItsWordsFirst(words, rest, k - 1, s, i);
      case Perhaps(words) => NoneWithoutItsWordsFirst(words, rest, k - 1, s, i);
      case Digit => if i < |s| { NoneWithoutItsWords(rest, k - 1, s, i + 1); }
      case PerhapsDigit => if i < |s| { NoneWithoutItsWords(rest, k - 1, s, i + 1); }
      case Spaces => if i < |s| { NoneWithoutItsWords(p, k, s, i + 1); }
      case _ =>
    }
  }

  lemma {:induction false} NoneWithoutItsWordsFirst(words: seq<string>, rest: Regex, k: nat, s: string, i: nat)
    requires k < |rest| && rest[k].OneOf? && i <= |s| && forall w :: w in rest[k].words ==> Lacks(s, w)
    ensures FirstOf(words, rest, s, i) == None
    decreases |rest|, |s| - i, |words| + 1
  {
    if words != [] {
      if StartsAt(s, i, words[0]) { NoneWithoutItsWords(rest, k, s, i + |words[0]|); }
      NoneWithoutItsWordsFirst(words[1..], rest, k, s, i);
    }
  }

  lemma {:induction false} NoneStartsWithout(words: seq<string>, rest: Regex, s: string, i: nat)
    requires i <= |s| && forall w :: w in words ==> Lacks(s, w)
    ensures FirstOf(words, rest, s, i) == None
  {
    if words != [] {
      assert words[0] in words;
      NeverStarts(s, i, words[0]);
      assert forall w :: w in words[1..] ==> w in words;
      NoneStartsWithout(words[1..], rest, s, i);
    }
  }

  lemma NeverStarts(s: string, i: nat, w: string)
    requires Lacks(s, w)
    ensures !StartsAt(s, i, w)
  {
    if i + |w| <= |s| {
      var piece := s[i..i + |w|];
      assert forall c :: c in piece ==> c in s;
    }
  }
}
