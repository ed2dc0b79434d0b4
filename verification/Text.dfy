/**
 The strings `backend/title_key.py` folds: ASCII, the typographic dashes and quotes it
 names, and anything else taken as punctuation. No accents, so the accent half of `_fold`
 is the identity here.
 */
module Text {
  const EN_DASH := '\U{2013}'
  const EM_DASH := '\U{2014}'
  const RIGHT_QUOTE := '\U{2019}'
  const RIGHT_DOUBLE_QUOTE := "\U{201D}"

  predicate IsUpper(c: char) { 'A' <= c <= 'Z' }

  predicate IsDigit(c: char) { '0' <= c <= '9' }

  predicate IsAlnum(c: char) { 'a' <= c <= 'z' || IsUpper(c) || IsDigit(c) }

  /** `\w` */
  predicate IsWord(c: char) { IsAlnum(c) || c == '_' }

  /** `\s` */
  predicate IsSpace(c: char) { '\t' <= c <= '\r' || 28 as char <= c <= ' ' }

  predicate IsApostrophe(c: char) { c == '\'' || c == '`' || c == RIGHT_QUOTE }

  function Lower(c: char): (d: char)
    ensures IsAlnum(c) ==> IsAlnum(d)
    ensures !IsUpper(c) ==> d == c
  {
    if IsUpper(c) then (c as int + 32) as char else c
  }

  /** Case folded and apostrophes dropped: `_fold`. */
  function Fold(s: string): string {
    if s == "" then "" else (if IsApostrophe(s[0]) then "" else [Lower(s[0])]) + Fold(s[1..])
  }

  /** Anything `str.strip()` would leave. */
  predicate HasInk(s: string) { exists i :: 0 <= i < |s| && !IsSpace(s[i]) }

  predicate AllSpace(s: string) { forall i :: 0 <= i < |s| ==> IsSpace(s[i]) }

  function RightStrip(s: string): string {
    if s != "" && IsSpace(s[|s| - 1]) then RightStrip(s[..|s| - 1]) else s
  }

  function Strip(s: string): string {
    if s != "" && IsSpace(s[0]) then Strip(s[1..]) else RightStrip(s)
  }

  /** The first index from `i` on that holds no space. */
  function Skip(s: string, i: nat): (j: nat)
    requires i <= |s|
    ensures i <= j <= |s| && (forall k :: i <= k < j ==> IsSpace(s[k])) && (j < |s| ==> !IsSpace(s[j]))
    decreases |s| - i
  {
    if i < |s| && IsSpace(s[i]) then Skip(s, i + 1) else i
  }

  predicate StartsAt(s: string, i: nat, w: string) { i + |w| <= |s| && s[i..i + |w|] == w }

  predicate EndsWith(s: string, w: string) { |w| <= |s| && s[|s| - |w|..] == w }

  function Replaced(s: string, c: char, w: string): string {
    if s == "" then "" else (if s[0] == c then w else [s[0]]) + Replaced(s[1..], c, w)
  }

  // ----- Words -----

  /** The closed words of a scan and the one still open. */
  datatype Scanned = Scanned(words: seq<string>, current: string) {
    function Closed(): seq<string> { if current == "" then words else words + [current] }
  }

  function Scan(s: string): Scanned {
    if s == "" then Scanned([], "")
    else
      var before, c := Scan(s[..|s| - 1]), s[|s| - 1];
      if IsAlnum(c) then before.(current := before.current + [c]) else Scanned(before.Closed(), "")
  }

  /** The runs of letters and digits: `_words`. */
  function Words(s: string): seq<string> { Scan(s).Closed() }

  predicate AllAlnum(s: string) { forall i :: 0 <= i < |s| ==> IsAlnum(s[i]) }

  predicate AreWords(ws: seq<string>) { forall w :: w in ws ==> w != "" && AllAlnum(w) }

  /** `_words` as it is written: one pass, a list of words and a buffer. */
  method SplitWords(text: string) returns (words: seq<string>)
    ensures words == Words(text)
  {
    words := [];
    var current := "";
    for i := 0 to |text|
      invariant Scanned(words, current) == Scan(text[..i])
    {
      assert text[..i + 1][..i] == text[..i];
      var ch := text[i];
      if IsAlnum(ch) {
        current := current + [ch];
      } else if current != "" {
        words, current := words + [current], "";
      }
    }
    assert text[..|text|] == text;
    if current != "" { words := words + [current]; }
  }

  lemma {:induction false} ScanIsWords(s: string)
    ensures AreWords(Words(s)) && AreWords(Scan(s).words) && AllAlnum(Scan(s).current)
  {
    if s != "" { ScanIsWords(s[..|s| - 1]); }
  }

  lemma {:induction false} ScanAppend(s: string, w: string)
    requires AllAlnum(w)
    ensures Scan(s + w) == Scan(s).(current := Scan(s).current + w)
  {
    if w == "" {
      assert s + w == s;
    } else {
      var v := w[..|w| - 1];
      ScanAppend(s, v);
      assert (s + w)[..|s + w| - 1] == s + v;
      assert v + [w[|w| - 1]] == w;
    }
  }

  /** A trailing character that is in no word ends the last one. */
  lemma WordsThen(s: string, c: char)
    requires !IsAlnum(c)
    ensures Words(s + [c]) == Words(s) && Scan(s + [c]).current == ""
  {
    assert (s + [c])[..|s|] == s;
  }

  /** A word between two characters that are in none. */
  lemma WordsEndWith(s: string, open: char, w: string, close: char)
    requires !IsAlnum(open) && !IsAlnum(close) && w != "" && AllAlnum(w)
    ensures Words(s + [open] + w + [close]) == Words(s) + [w]
  {
    WordsThen(s, open);
    ScanAppend(s + [open], w);
    assert "" + w == w;
    WordsThen(s + [open] + w, close);
  }

  lemma EndsInWord(s: string)
    requires s != "" && IsAlnum(s[|s| - 1])
    ensures Words(s) != []
  {
  }

  /** There is a word exactly where there is a letter or a digit. */
  lemma {:induction false} SomeWord(s: string)
    ensures Words(s) != [] <==> exists i :: 0 <= i < |s| && IsAlnum(s[i])
  {
    if s != "" {
      var t := s[..|s| - 1];
      SomeWord(t);
      if IsAlnum(s[|s| - 1]) {
        EndsInWord(s);
      } else {
        assert s == t + [s[|s| - 1]];
        WordsThen(t, s[|s| - 1]);
        if i :| 0 <= i < |s| && IsAlnum(s[i]) {
          assert t[i] == s[i];
        }
        if i :| 0 <= i < |t| && IsAlnum(t[i]) {
          assert s[i] == t[i];
        }
      }
    }
  }

  // ----- Folding -----

  lemma {:induction false} FoldAppend(s: string, t: string)
    ensures Fold(s + t) == Fold(s) + Fold(t)
  {
    if s == "" {
      assert s + t == t;
    } else {
      FoldAppend(s[1..], t);
      assert (s + t)[1..] == s[1..] + t && (s + t)[0] == s[0];
      Regroup(if IsApostrophe(s[0]) then "" else [Lower(s[0])], Fold(s[1..]), Fold(t));
    }
  }

  /** No spelling of an apostrophe, and no capital, makes a difference. */
  lemma FoldForgets(before: string, after: string, capital: char)
    requires 'A' <= capital <= 'Z'
    ensures Fold(before + "'" + after) == Fold(before + after)
    ensures Fold(before + "`" + after) == Fold(before + after)
    ensures Fold(before + [RIGHT_QUOTE] + after) == Fold(before + after)
    ensures Fold(before + [capital] + after) == Fold(before + [(capital as int + 32) as char] + after)
  {
    FoldBetween(before, '\'', after);
    FoldBetween(before, '`', after);
    FoldBetween(before, RIGHT_QUOTE, after);
    FoldBetween(before, capital, after);
    FoldBetween(before, (capital as int + 32) as char, after);
    FoldAppend(before, after);
    assert ['\''] == "'" && ['`'] == "`";
  }

  lemma FoldBetween(before: string, c: char, after: string)
    ensures Fold(before + [c] + after) == Fold(before) + (if IsApostrophe(c) then "" else [Lower(c)]) + Fold(after)
  {
    FoldAppend(before + [c], after);
    FoldAppend(before, [c]);
    assert [c][1..] == "" && Fold("") == "";
  }

  /** Spaces, dashes and everything else that is neither upper case nor an apostrophe. */
  lemma {:induction false} FoldSame(s: string)
    requires forall i :: 0 <= i < |s| ==> !IsUpper(s[i]) && !IsApostrophe(s[i])
    ensures Fold(s) == s
  {
    if s != "" {
      FoldSame(s[1..]);
      assert s == [s[0]] + s[1..];
    }
  }

  lemma {:induction false} ReplacedAppend(s: string, t: string, c: char, w: string)
    ensures Replaced(s + t, c, w) == Replaced(s, c, w) + Replaced(t, c, w)
  {
    if s == "" {
      assert s + t == t;
    } else {
      ReplacedAppend(s[1..], t, c, w);
      assert (s + t)[1..] == s[1..] + t && (s + t)[0] == s[0];
      Regroup(if s[0] == c then w else [s[0]], Replaced(s[1..], c, w), Replaced(t, c, w));
    }
  }

  lemma Regroup(a: string, b: string, c: string)
    ensures a + (b + c) == a + b + c
  {
  }

  lemma {:induction false} Unreplaced(s: string, c: char, w: string)
    requires c !in s
    ensures Replaced(s, c, w) == s
  {
    if s != "" {
      Unreplaced(s[1..], c, w);
      assert s == [s[0]] + s[1..];
    }
  }

  // ----- Stripping -----

  lemma {:induction false} RightStripIs(s: string)
    ensures exists t :: AllSpace(t) && s == RightStrip(s) + t
    ensures RightStrip(s) != "" <==> HasInk(s)
    ensures RightStrip(s) != "" ==> !IsSpace(RightStrip(s)[|RightStrip(s)| - 1])
  {
    if s != "" && IsSpace(s[|s| - 1]) {
      var r := s[..|s| - 1];
      RightStripIs(r);
      var t :| AllSpace(t) && r == RightStrip(r) + t;
      var u := t + [s[|s| - 1]];
      assert AllSpace(u);
      assert s == RightStrip(s) + u;
      InkWithout(s);
    } else {
      assert AllSpace("") && s == RightStrip(s) + "";
      if s != "" { InkSomewhere(s, |s| - 1); }
    }
  }

  lemma InkWithout(s: string)
    requires s != "" && IsSpace(s[|s| - 1])
    ensures HasInk(s) <==> HasInk(s[..|s| - 1])
  {
    var r := s[..|s| - 1];
    if HasInk(s) {
      var i :| 0 <= i < |s| && !IsSpace(s[i]);
      assert r[i] == s[i];
    }
    if HasInk(r) {
      var i :| 0 <= i < |r| && !IsSpace(r[i]);
      assert s[i] == r[i];
    }
  }

  lemma {:induction false} StripInk(s: string)
    ensures Strip(s) != "" <==> HasInk(s)
  {
    if s != "" && IsSpace(s[0]) {
      StripInk(s[1..]);
      if HasInk(s) {
        var i :| 0 <= i < |s| && !IsSpace(s[i]);
        assert s[1..][i - 1] == s[i];
      }
      if HasInk(s[1..]) {
        var i :| 0 <= i < |s[1..]| && !IsSpace(s[1..][i]);
        assert s[i + 1] == s[1..][i];
      }
    } else {
      RightStripIs(s);
    }
  }

  /** A trailing space is stripped. */
  lemma {:induction false} StripTrailing(s: string, c: char)
    requires IsSpace(c)
    ensures Strip(s + [c]) == Strip(s)
  {
    var t := s + [c];
    if s != "" && IsSpace(s[0]) {
      StripTrailing(s[1..], c);
      assert t[1..] == s[1..] + [c];
    } else if s == "" {
      assert t[1..] == "" && t[0] == c;
    } else {
      assert t[..|t| - 1] == s;
    }
  }

  lemma InkSomewhere(s: string, i: nat)
    requires i < |s| && !IsSpace(s[i])
    ensures HasInk(s)
  {
  }
}
