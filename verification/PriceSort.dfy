/**
 The numeric sort key of a free-text price: `_price_sort_sql` of `backend/db.py`.

 The column is any string. The token is what Postgres's leftmost-longest match of
 `[.,]?[0-9][0-9.,]*[0-9]|[.,]?[0-9]` finds, and the answer is the text handed to the
 numeric cast.
 */
module PriceSort {
  import opened Options

  predicate IsDigit(c: char) { '0' <= c <= '9' }

  predicate IsSep(c: char) { c == '.' || c == ',' }

  predicate TokenChar(c: char) { IsDigit(c) || IsSep(c) }

  predicate AllDigits(s: string) { forall i :: 0 <= i < |s| ==> IsDigit(s[i]) }

  predicate Number(s: string) { s != [] && AllDigits(s) }

  /** The shape both alternatives of the token's pattern describe. */
  predicate Lexeme(t: string) {
    && t != [] && IsDigit(t[|t| - 1])
    && Run(t)
    && (IsSep(t[0]) ==> IsDigit(t[1]))
  }

  /** A token can start at the front of `s`. */
  predicate StartsHere(s: string) {
    s != [] && (IsDigit(s[0]) || (IsSep(s[0]) && |s| > 1 && IsDigit(s[1])))
  }

  /** The end of the last digit in the run of token characters at the front of `s`. */
  function RunEnd(s: string): (n: nat)
    ensures n <= |s|
  {
    if s == [] || !TokenChar(s[0]) then 0
    else
      var n := RunEnd(s[1..]);
      if n > 0 || IsDigit(s[0]) then n + 1 else 0
  }

  function Token(s: string): Option<string> {
    if s == [] then None
    else if StartsHere(s) then Some(s[..RunEnd(s)])
    else Token(s[1..])
  }

  /** The pieces of `s` between occurrences of `sep`. */
  function Split(s: string, sep: char): (parts: seq<string>)
    ensures parts != []
  {
    if s == [] then [""]
    else
      var rest := Split(s[1..], sep);
      if s[0] == sep then [""] + rest else [[s[0]] + rest[0]] + rest[1..]
  }

  function Join(parts: seq<string>, sep: char): string
    requires parts != []
  {
    if |parts| == 1 then parts[0] else parts[0] + [sep] + Join(parts[1..], sep)
  }

  function Without(s: string, c: char): string {
    if s == [] then "" else (if s[0] == c then "" else [s[0]]) + Without(s[1..], c)
  }

  function Replaced(s: string, c: char, d: char): string {
    if s == [] then "" else [if s[0] == c then d else s[0]] + Replaced(s[1..], c, d)
  }

  /** `[0-9]{lo,hi}` */
  predicate Group(s: string, lo: nat, hi: nat) { lo <= |s| <= hi && AllDigits(s) }

  /** One group of one to `first` digits and then at least `more` of exactly three. */
  predicate Thousands(groups: seq<string>, more: nat) {
    && |groups| > more && Group(groups[0], 1, 3)
    && forall i :: 1 <= i < |groups| ==> Group(groups[i], 3, 3)
  }

  /** Groups of two digits, the first one or two, before a last one of three. */
  predicate Lakhs(groups: seq<string>) {
    && |groups| > 2 && Group(groups[0], 1, 2) && Group(groups[|groups| - 1], 3, 3)
    && forall i :: 1 <= i < |groups| - 1 ==> Group(groups[i], 2, 2)
  }

  /** Either no `.` in the token or one, with digits after it. */
  predicate DotDecimal(byDot: seq<string>) {
    |byDot| == 1 || (|byDot| == 2 && Number(byDot[1]))
  }

  predicate CommaGrouped(t: string) {
    var d := Split(t, '.');
    DotDecimal(d) && Thousands(Split(d[0], ','), 1)
  }

  predicate DotGrouped(t: string) {
    var c := Split(t, ',');
    Thousands(Split(t, '.'), 2) || (|c| == 2 && Number(c[1]) && Thousands(Split(c[0], '.'), 1))
  }

  predicate IndianGrouped(t: string) {
    var d := Split(t, '.');
    DotDecimal(d) && Lakhs(Split(d[0], ','))
  }

  predicate DecimalComma(t: string) {
    var c := Split(t, ',');
    |c| == 2 && Number(c[0]) && Number(c[1])
  }

  predicate Plain(t: string) {
    var d := Split(t, '.');
    DotDecimal(d) && Number(d[0])
  }

  function LeadingDigits(t: string): string {
    if t == [] || !IsDigit(t[0]) then "" else [t[0]] + LeadingDigits(t[1..])
  }

  /** The branches, in their order. */
  function Read(t: string): string {
    if CommaGrouped(t) then Without(t, ',')
    else if DotGrouped(t) then Replaced(Without(t, '.'), ',', '.')
    else if IndianGrouped(t) then Without(t, ',')
    else if DecimalComma(t) then Replaced(t, ',', '.')
    else if Plain(t) then t
    else LeadingDigits(t)
  }

  function ZeroPadded(t: string): string {
    if t != [] && IsSep(t[0]) then "0" + t else t
  }

  function SortKey(price: string): Option<string> {
    match Token(price)
    case None => None
    case Some(t) => Some(Read(ZeroPadded(t)))
  }

  // ----- The token -----

  predicate Run(s: string) { forall i :: 0 <= i < |s| ==> TokenChar(s[i]) }

  lemma {:induction false} RunEndIs(s: string)
    ensures var n := RunEnd(s); Run(s[..n]) && (n > 0 ==> IsDigit(s[n - 1]))
    ensures forall m :: RunEnd(s) < m <= |s| && IsDigit(s[m - 1]) ==> !Run(s[..m])
  {
    if s != [] && TokenChar(s[0]) {
      RunEndIs(s[1..]);
      forall m | RunEnd(s) < m <= |s| && IsDigit(s[m - 1]) ensures !Run(s[..m]) {
        if m > 1 {
          assert s[1..][m - 2] == s[m - 1];
          assert !Run(s[1..][..m - 1]);
          assert s[1..][..m - 1] == s[..m][1..];
        }
      }
    } else {
      forall m | 0 < m <= |s| ensures !Run(s[..m]) { assert s[..m][0] == s[0]; }
    }
  }

  predicate MatchesAt(s: string, i: nat, j: nat) { i <= j <= |s| && Lexeme(s[i..j]) }

  /** `t` is the leftmost match in `s`, at `at`, and the longest one there. */
  ghost predicate LeftmostLongest(s: string, t: string, at: nat) {
    && at + |t| <= |s| && s[at..at + |t|] == t && Lexeme(t)
    && (forall i: nat, j: nat :: i < at ==> !MatchesAt(s, i, j))
    && (forall j: nat :: at + |t| < j ==> !MatchesAt(s, at, j))
  }

  lemma FirstToken(s: string)
    requires StartsHere(s)
    ensures LeftmostLongest(s, s[..RunEnd(s)], 0)
  {
    RunEndIs(s);
    var n := RunEnd(s);
    assert s[..1] == [s[0]] && Run(s[..1]);
    if IsSep(s[0]) { assert s[..2] == [s[0], s[1]] && Run(s[..2]); }
    forall j: nat | n < j ensures !MatchesAt(s, 0, j) {
      if j <= |s| {
        assert s[0..j] == s[..j];
        assert s[..j][j - 1] == s[j - 1];
        if IsDigit(s[j - 1]) { assert !Run(s[..j]); }
      }
    }
    assert s[0..0 + n] == s[..n];
  }

  lemma Shifted(s: string, i: nat, j: nat)
    requires 1 <= i && s != []
    ensures MatchesAt(s, i, j) <==> j > 0 && MatchesAt(s[1..], i - 1, j - 1)
  {
    if i <= j <= |s| {
      var rest := s[1..];
      var here, there := s[i..j], rest[i - 1..j - 1];
      assert forall k :: 0 <= k < j - i ==> here[k] == s[i + k] && there[k] == rest[i - 1 + k] && rest[i - 1 + k] == s[i + k];
      assert here == there;
    }
  }

  lemma LaterToken(s: string, t: string, at: nat, next: nat)
    requires s != [] && !StartsHere(s) && LeftmostLongest(s[1..], t, at) && next == at + 1
    ensures LeftmostLongest(s, t, next)
  {
    assert s[next..next + |t|] == s[1..][at..at + |t|];
    forall i: nat, j: nat | i < next ensures !MatchesAt(s, i, j) {
      if i > 0 { Shifted(s, i, j); }
    }
    forall j: nat | next + |t| < j ensures !MatchesAt(s, next, j) {
      Shifted(s, next, j);
    }
  }

  /** The token is the leftmost match, and the longest one there; there is none exactly
      when the text has no digit. */
  lemma {:induction false} TokenIsLeftmostLongest(s: string)
    ensures match Token(s)
            case None => forall i :: 0 <= i < |s| ==> !IsDigit(s[i])
            case Some(t) => exists at: nat :: LeftmostLongest(s, t, at)
  {
    if s != [] {
      if StartsHere(s) {
        FirstToken(s);
        assert Token(s) == Some(s[..RunEnd(s)]);
      } else {
        TokenIsLeftmostLongest(s[1..]);
        match Token(s[1..])
        case None =>
          forall i | 0 <= i < |s| ensures !IsDigit(s[i]) {
            if i > 0 { assert s[1..][i - 1] == s[i]; }
          }
        case Some(t) =>
          var at: nat :| LeftmostLongest(s[1..], t, at);
          LaterToken(s, t, at, at + 1);
          assert Token(s) == Some(t);
      }
    }
  }

  // ----- Splitting and joining -----

  lemma {:induction false} SplitFirst(piece: string, sep: char, rest: string)
    requires sep !in piece
    ensures Split(piece, sep) == [piece]
    ensures Split(piece + [sep] + rest, sep) == [piece] + Split(rest, sep)
  {
    var s := piece + [sep] + rest;
    if piece == [] {
      assert s[1..] == rest;
    } else {
      SplitFirst(piece[1..], sep, rest);
      assert s[1..] == piece[1..] + [sep] + rest;
      assert [piece[0]] + piece[1..] == piece;
    }
  }

  lemma {:induction false} SplitJoined(parts: seq<string>, sep: char)
    requires parts != [] && forall p :: p in parts ==> sep !in p
    ensures Split(Join(parts, sep), sep) == parts
  {
    if |parts| > 1 {
      SplitJoined(parts[1..], sep);
      SplitFirst(parts[0], sep, Join(parts[1..], sep));
      assert [parts[0]] + parts[1..] == parts;
    } else {
      SplitFirst(parts[0], sep, "");
      assert parts == [parts[0]];
    }
  }

  lemma {:induction false} JoinedSplit(s: string, sep: char)
    ensures Join(Split(s, sep), sep) == s
    ensures forall p :: p in Split(s, sep) ==> sep !in p
    ensures forall p, c :: p in Split(s, sep) && c in p ==> c in s
  {
    if s != [] {
      JoinedSplit(s[1..], sep);
      var rest := Split(s[1..], sep);
      assert s == [s[0]] + s[1..];
      if s[0] == sep {
        assert ([""] + rest)[1..] == rest;
      } else if |rest| > 1 {
        var parts := [[s[0]] + rest[0]] + rest[1..];
        assert parts[1..] == rest[1..];
        assert Join(parts, sep) == [s[0]] + Join(rest, sep);
      }
    }
  }

  function Concat(parts: seq<string>): string {
    if parts == [] then "" else parts[0] + Concat(parts[1..])
  }

  lemma {:induction false} ConcatSnoc(parts: seq<string>, last: string)
    ensures Concat(parts + [last]) == Concat(parts) + last
  {
    if parts == [] {
      assert parts + [last] == [last] && last + "" == last;
    } else {
      ConcatSnoc(parts[1..], last);
      assert (parts + [last])[1..] == parts[1..] + [last];
    }
  }

  lemma Regroup(a: string, b: string, c: string)
    ensures a + (b + c) == a + b + c
  {
  }

  lemma {:induction false} WithoutAppend(s: string, t: string, c: char)
    ensures Without(s + t, c) == Without(s, c) + Without(t, c)
  {
    if s == [] {
      assert s + t == t;
    } else {
      WithoutAppend(s[1..], t, c);
      assert (s + t)[1..] == s[1..] + t && (s + t)[0] == s[0];
      Regroup(if s[0] == c then "" else [s[0]], Without(s[1..], c), Without(t, c));
    }
  }

  lemma {:induction false} ReplacedAppend(s: string, t: string, c: char, d: char)
    ensures Replaced(s + t, c, d) == Replaced(s, c, d) + Replaced(t, c, d)
  {
    if s == [] {
      assert s + t == t;
    } else {
      ReplacedAppend(s[1..], t, c, d);
      assert (s + t)[1..] == s[1..] + t && (s + t)[0] == s[0];
      Regroup([if s[0] == c then d else s[0]], Replaced(s[1..], c, d), Replaced(t, c, d));
    }
  }

  lemma Removed(s: string, t: string, c: char, d: char)
    ensures Without(s + t, c) == Without(s, c) + Without(t, c)
    ensures Replaced(s + t, c, d) == Replaced(s, c, d) + Replaced(t, c, d)
  {
    WithoutAppend(s, t, c);
    ReplacedAppend(s, t, c, d);
  }

  lemma {:induction false} Untouched(s: string, c: char, d: char)
    requires c !in s
    ensures Without(s, c) == s && Replaced(s, c, d) == s
  {
    if s != [] {
      Untouched(s[1..], c, d);
      assert s == [s[0]] + s[1..];
    }
  }

  lemma SeparatorRemoved(piece: string, sep: char, rest: string)
    requires sep !in piece
    ensures Without(piece + [sep] + rest, sep) == piece + Without(rest, sep)
  {
    hide Without;
    WithoutAppend(piece + [sep], rest, sep);
    WithoutAppend(piece, [sep], sep);
    Untouched(piece, sep, sep);
    LoneSeparator(sep);
  }

  lemma LoneSeparator(sep: char)
    ensures Without([sep], sep) == ""
  {
  }

  lemma {:induction false} SeparatorsRemoved(parts: seq<string>, sep: char)
    requires parts != [] && forall p :: p in parts ==> sep !in p
    ensures Without(Join(parts, sep), sep) == Concat(parts)
  {
    hide Without;
    if |parts| > 1 {
      SeparatorsRemoved(parts[1..], sep);
      SeparatorRemoved(parts[0], sep, Join(parts[1..], sep));
    } else {
      Untouched(parts[0], sep, sep);
      assert Concat(parts[1..]) == "";
    }
  }

  predicate DigitGroups(parts: seq<string>) { forall p :: p in parts ==> AllDigits(p) }

  lemma {:induction false} DigitsConcat(parts: seq<string>)
    requires DigitGroups(parts)
    ensures AllDigits(Concat(parts))
  {
    if parts != [] {
      DigitsConcat(parts[1..]);
      assert AllDigits(parts[0]);
      var rest := Concat(parts[1..]);
      forall i | 0 <= i < |parts[0] + rest| ensures IsDigit((parts[0] + rest)[i]) {
        if i >= |parts[0]| { assert IsDigit(rest[i - |parts[0]|]); }
      }
    }
  }

  /** A whole part and, unless it is empty, a fractional part behind `sep`. */
  function Amount(whole: string, sep: char, fraction: string): string {
    if fraction == "" then whole else whole + [sep] + fraction
  }

  lemma AmountSplit(whole: string, sep: char, fraction: string)
    requires sep !in whole && sep !in fraction
    ensures Split(Amount(whole, sep, fraction), sep) == if fraction == "" then [whole] else [whole, fraction]
  {
    SplitFirst(whole, sep, fraction);
    SplitFirst(fraction, sep, "");
  }

  /** Removing grouping commas leaves the digits and the dot decimals. */
  lemma UngroupsCommas(groups: seq<string>, fraction: string)
    requires groups != [] && DigitGroups(groups) && AllDigits(fraction)
    ensures Without(Amount(Join(groups, ','), '.', fraction), ',') == Amount(Concat(groups), '.', fraction)
  {
    SeparatorsRemoved(groups, ',');
    Removed(Join(groups, ',') + ".", fraction, ',', '.');
    Removed(Join(groups, ','), ".", ',', '.');
    Untouched(fraction, ',', '.');
    Untouched(".", ',', '.');
  }

  /** Removing grouping dots and turning the decimal comma round does the same. */
  lemma UngroupsDots(groups: seq<string>, fraction: string)
    requires groups != [] && DigitGroups(groups) && AllDigits(fraction)
    ensures Replaced(Without(Amount(Join(groups, '.'), ',', fraction), '.'), ',', '.') ==
            Amount(Concat(groups), '.', fraction)
  {
    SeparatorsRemoved(groups, '.');
    DigitsConcat(groups);
    Removed(Join(groups, '.') + ",", fraction, '.', ',');
    Removed(Join(groups, '.'), ",", '.', ',');
    Untouched(fraction, '.', ',');
    Untouched(",", '.', ',');
    CommaToDot(Concat(groups), fraction);
  }

  lemma CommaToDot(whole: string, fraction: string)
    requires AllDigits(whole) && AllDigits(fraction)
    ensures Replaced(Amount(whole, ',', fraction), ',', '.') == Amount(whole, '.', fraction)
  {
    Removed(whole + ",", fraction, ',', '.');
    Removed(whole, ",", ',', '.');
    Untouched(whole, ',', '.');
    Untouched(fraction, ',', '.');
    assert Replaced(",", ',', '.') == ".";
  }

  // ----- Every answer can be cast -----

  /** Digits with at most one dot, and digits on both sides of it. */
  ghost predicate Castable(s: string) {
    exists whole, fraction :: CastableAs(s, whole, fraction)
  }

  predicate CastableAs(s: string, whole: string, fraction: string) {
    Number(whole) && AllDigits(fraction) && s == Amount(whole, '.', fraction)
  }

  lemma DotDecimalIs(t: string)
    requires DotDecimal(Split(t, '.'))
    ensures var d := Split(t, '.');
            t == Amount(d[0], '.', if |d| == 1 then "" else d[1])
  {
    JoinedSplit(t, '.');
    var d := Split(t, '.');
    if |d| == 2 { assert Join(d[1..], '.') == d[1]; }
  }

  lemma DecimalCommaIs(t: string)
    requires |Split(t, ',')| == 2 && Number(Split(t, ',')[1])
    ensures t == Amount(Split(t, ',')[0], ',', Split(t, ',')[1])
  {
    JoinedSplit(t, ',');
    var c := Split(t, ',');
    assert Join(c[1..], ',') == c[1];
  }

  lemma CommaBranchCasts(t: string)
    requires CommaGrouped(t) || IndianGrouped(t)
    ensures Castable(Without(t, ','))
  {
    hide Split, Join, Without, Replaced;
    var d := Split(t, '.');
    var groups := Split(d[0], ',');
    var fraction := if |d| == 1 then "" else d[1];
    DotDecimalIs(t);
    JoinedSplit(d[0], ',');
    assert DigitGroups(groups);
    UngroupsCommas(groups, fraction);
    DigitsConcat(groups);
    assert CastableAs(Without(t, ','), Concat(groups), fraction);
  }

  lemma DotBranchCasts(t: string)
    requires DotGrouped(t)
    ensures Castable(Replaced(Without(t, '.'), ',', '.'))
  {
    hide Split, Join, Without, Replaced;
    var read := Replaced(Without(t, '.'), ',', '.');
    if Thousands(Split(t, '.'), 2) {
      var groups := Split(t, '.');
      JoinedSplit(t, '.');
      assert DigitGroups(groups);
      UngroupsDots(groups, "");
      DigitsConcat(groups);
      assert CastableAs(read, Concat(groups), "");
    } else {
      var c := Split(t, ',');
      var groups := Split(c[0], '.');
      DecimalCommaIs(t);
      JoinedSplit(c[0], '.');
      assert DigitGroups(groups);
      UngroupsDots(groups, c[1]);
      DigitsConcat(groups);
      assert CastableAs(read, Concat(groups), c[1]);
    }
  }

  lemma ReadCasts(t: string)
    requires t != "" && IsDigit(t[0])
    ensures Castable(Read(t))
  {
    hide Split, Join, Without, Replaced;
    if CommaGrouped(t) {
      CommaBranchCasts(t);
    } else if DotGrouped(t) {
      DotBranchCasts(t);
    } else if IndianGrouped(t) {
      CommaBranchCasts(t);
    } else if DecimalComma(t) {
      var c := Split(t, ',');
      DecimalCommaIs(t);
      CommaToDot(c[0], c[1]);
      assert CastableAs(Read(t), c[0], c[1]);
    } else if Plain(t) {
      DotDecimalIs(t);
      var d := Split(t, '.');
      assert CastableAs(t, d[0], if |d| == 1 then "" else d[1]);
    } else {
      LeadingDigitsAre(t);
      assert CastableAs(Read(t), LeadingDigits(t), "");
    }
  }

  lemma {:induction false} LeadingDigitsAre(t: string)
    ensures AllDigits(LeadingDigits(t)) && LeadingDigits(t) <= t
    ensures t != "" && IsDigit(t[0]) ==> LeadingDigits(t) != ""
  {
    if t != [] && IsDigit(t[0]) { LeadingDigitsAre(t[1..]); }
  }

  /** Every text with a digit has a sort key the numeric cast accepts, and no other text
      has one. */
  lemma EveryKeyCasts(price: string)
    ensures SortKey(price).None? <==> forall i :: 0 <= i < |price| ==> !IsDigit(price[i])
    ensures SortKey(price).Some? ==> Castable(SortKey(price).value)
  {
    hide Read;
    TokenIsLeftmostLongest(price);
    if Token(price).Some? {
      var t := Token(price).value;
      var at: nat :| LeftmostLongest(price, t, at);
      assert price[at + |t| - 1] == t[|t| - 1];
      ReadCasts(ZeroPadded(t));
    }
  }

  // ----- Printed amounts read back -----

  /** Nothing of a token in it: no digit, no dot and no comma. */
  predicate Foreign(s: string) { forall i :: 0 <= i < |s| ==> !TokenChar(s[i]) }

  /** Text that adds no digit to a token it follows. */
  predicate Trails(s: string) {
    s == "" || !TokenChar(s[0]) || (IsSep(s[0]) && Trails(s[1..]))
  }

  lemma {:induction false} RunEndOf(t: string, suffix: string)
    requires Run(t) && t != "" && IsDigit(t[|t| - 1]) && Trails(suffix)
    ensures RunEnd(t + suffix) == |t|
  {
    assert (t + suffix)[1..] == t[1..] + suffix;
    if |t| == 1 {
      TrailsHasNoRun(suffix);
      assert t[1..] + suffix == suffix;
    } else {
      RunEndOf(t[1..], suffix);
    }
  }

  lemma {:induction false} TrailsHasNoRun(suffix: string)
    requires Trails(suffix)
    ensures RunEnd(suffix) == 0
  {
    if suffix != "" && IsSep(suffix[0]) { TrailsHasNoRun(suffix[1..]); }
  }

  /** The token of a printed amount is the amount. */
  lemma {:induction false} TokenFound(prefix: string, t: string, suffix: string)
    requires Foreign(prefix) && Lexeme(t) && Trails(suffix)
    ensures Token(prefix + t + suffix) == Some(t)
  {
    var s := prefix + t + suffix;
    if prefix == "" {
      assert s == t + suffix && s[0] == t[0];
      if |t| > 1 { assert s[1] == t[1]; }
      RunEndOf(t, suffix);
      assert s[..|t|] == t;
    } else {
      assert s[0] == prefix[0] && s[1..] == prefix[1..] + t + suffix;
      TokenFound(prefix[1..], t, suffix);
    }
  }

  /** `w` in groups of three from the right. */
  function InThousands(w: string): (groups: seq<string>)
    ensures groups != []
  {
    if |w| <= 3 then [w] else InThousands(w[..|w| - 3]) + [w[|w| - 3..]]
  }

  /** `w` in groups of two from the right. */
  function InPairs(w: string): (groups: seq<string>)
    ensures groups != []
  {
    if |w| <= 2 then [w] else InPairs(w[..|w| - 2]) + [w[|w| - 2..]]
  }

  /** The Indian grouping: a last group of three, and groups of two before it. */
  function InLakhs(w: string): (groups: seq<string>)
    ensures groups != []
  {
    if |w| <= 3 then [w] else InPairs(w[..|w| - 3]) + [w[|w| - 3..]]
  }

  lemma {:induction false} ThousandsOf(w: string)
    requires Number(w)
    ensures var groups := InThousands(w);
            && DigitGroups(groups) && Concat(groups) == w && Thousands(groups, 0)
            && (|groups| > 1 <==> |w| > 3) && (|groups| > 2 <==> |w| > 6)
  {
    if |w| > 3 {
      var rest, last := w[..|w| - 3], w[|w| - 3..];
      ThousandsOf(rest);
      ConcatSnoc(InThousands(rest), last);
    }
  }

  lemma {:induction false} PairsOf(w: string)
    requires Number(w)
    ensures var groups := InPairs(w);
            && DigitGroups(groups) && Concat(groups) == w && Group(groups[0], 1, 2)
            && (forall i :: 1 <= i < |groups| ==> Group(groups[i], 2, 2))
            && (|groups| > 1 <==> |w| > 2)
  {
    if |w| > 2 {
      var rest, last := w[..|w| - 2], w[|w| - 2..];
      PairsOf(rest);
      ConcatSnoc(InPairs(rest), last);
    }
  }

  lemma LakhsOf(w: string)
    requires Number(w)
    ensures var groups := InLakhs(w);
            && DigitGroups(groups) && Concat(groups) == w
            && (|groups| > 1 <==> |w| > 3)
            && (|groups| == 2 ==> Thousands(groups, 1)) && (|groups| > 2 ==> Lakhs(groups))
  {
    SingleGroup([w], ',');
    hide Concat, InPairs;
    if |w| > 3 {
      var rest, last := w[..|w| - 3], w[|w| - 3..];
      PairsOf(rest);
      ConcatSnoc(InPairs(rest), last);
    }
  }

  /** A grouped amount is a token, and starts with a digit. */
  lemma {:induction false} GroupsRun(groups: seq<string>, sep: char)
    requires groups != [] && IsSep(sep) && forall g :: g in groups ==> Number(g)
    ensures var j := Join(groups, sep); j != "" && Run(j) && IsDigit(j[0]) && IsDigit(j[|j| - 1])
  {
    var j := Join(groups, sep);
    assert Number(groups[0]);
    if |groups| > 1 {
      var rest := Join(groups[1..], sep);
      GroupsRun(groups[1..], sep);
      assert j == groups[0] + [sep] + rest;
      assert j[|j| - 1] == rest[|rest| - 1] && j[0] == groups[0][0];
      forall i | 0 <= i < |j| ensures TokenChar(j[i]) {
        if i < |groups[0]| { assert j[i] == groups[0][i]; }
        if i > |groups[0]| { assert j[i] == rest[i - |groups[0]| - 1]; }
      }
    }
  }

  lemma AmountIsToken(groups: seq<string>, sep: char, point: char, fraction: string)
    requires groups != [] && IsSep(sep) && IsSep(point) && AllDigits(fraction)
    requires forall g :: g in groups ==> Number(g)
    ensures var t := Amount(Join(groups, sep), point, fraction); Lexeme(t) && IsDigit(t[0]) && ZeroPadded(t) == t
  {
    GroupsRun(groups, sep);
  }

  /** The key of a printed amount is what the branches make of it. */
  lemma KeyOf(prefix: string, groups: seq<string>, sep: char, point: char, fraction: string, suffix: string)
    requires Foreign(prefix) && Trails(suffix)
    requires groups != [] && IsSep(sep) && IsSep(point) && AllDigits(fraction)
    requires forall g :: g in groups ==> Number(g)
    ensures var t := Amount(Join(groups, sep), point, fraction); SortKey(prefix + t + suffix) == Some(Read(t))
  {
    hide Join;
    AmountIsToken(groups, sep, point, fraction);
    TokenFound(prefix, Amount(Join(groups, sep), point, fraction), suffix);
  }

  lemma {:induction false} NoOther(groups: seq<string>, sep: char, other: char)
    requires groups != [] && sep != other && DigitGroups(groups) && !IsDigit(other)
    ensures other !in Join(groups, sep)
  {
    assert AllDigits(groups[0]) && other !in groups[0];
    if |groups| > 1 { NoOther(groups[1..], sep, other); }
  }

  /** What the branches see of digit groups joined by commas before a dot decimal. */
  lemma CommaShape(groups: seq<string>, fraction: string)
    requires groups != [] && DigitGroups(groups) && AllDigits(fraction)
    ensures var t := Amount(Join(groups, ','), '.', fraction);
            var d := Split(t, '.');
            && DotDecimal(d) && d[0] == Join(groups, ',') && Split(d[0], ',') == groups && |d| <= 2
            && (|groups| > 1 ==> Split(Split(t, ',')[0], '.') == [groups[0]])
            && (|groups| == 1 ==> |Split(t, ',')| == 1)
  {
    hide Split;
    var t := Amount(Join(groups, ','), '.', fraction);
    NoOther(groups, ',', '.');
    AmountSplit(Join(groups, ','), '.', fraction);
    SplitJoined(groups, ',');
    assert AllDigits(groups[0]);
    if |groups| > 1 {
      LeadingGroup(groups, fraction);
    } else {
      SplitFirst(t, ',', "");
    }
  }

  lemma LeadingGroup(groups: seq<string>, fraction: string)
    requires |groups| > 1 && AllDigits(groups[0])
    ensures Split(Split(Amount(Join(groups, ','), '.', fraction), ',')[0], '.') == [groups[0]]
  {
    hide Split;
    var after := Amount(Join(groups[1..], ','), '.', fraction);
    assert Amount(Join(groups, ','), '.', fraction) == groups[0] + "," + after;
    SplitFirst(groups[0], ',', after);
    SplitFirst(groups[0], '.', "");
  }

  /** Comma grouping of any length with optional dot decimals reads back, whatever
      foreign text stands before it. */
  lemma CommaGroupingReadsBack(prefix: string, w: string, fraction: string, suffix: string)
    requires Foreign(prefix) && Number(w) && AllDigits(fraction) && Trails(suffix)
    ensures SortKey(prefix + Amount(Join(InThousands(w), ','), '.', fraction) + suffix) ==
            Some(Amount(w, '.', fraction))
  {
    hide Join, Split, InThousands;
    var groups := InThousands(w);
    ThousandsOf(w);
    KeyOf(prefix, groups, ',', '.', fraction, suffix);
    CommaShape(groups, fraction);
    UngroupsCommas(groups, fraction);
    if |groups| == 1 { SingleGroup(groups, ','); }
  }

  lemma SingleGroup(groups: seq<string>, sep: char)
    requires |groups| == 1
    ensures Join(groups, sep) == Concat(groups) == groups[0]
  {
    assert Concat(groups[1..]) == "";
  }

  lemma PlainRead(w: string, fraction: string)
    requires Number(w) && AllDigits(fraction)
    ensures Read(Amount(w, '.', fraction)) == Amount(w, '.', fraction)
  {
    hide Split;
    SingleGroup([w], ',');
    CommaShape([w], fraction);
  }

  /** An amount printed with no grouping and a dot decimal reads back. */
  lemma PlainReadsBack(prefix: string, w: string, fraction: string, suffix: string)
    requires Foreign(prefix) && Number(w) && AllDigits(fraction) && Trails(suffix)
    ensures SortKey(prefix + Amount(w, '.', fraction) + suffix) == Some(Amount(w, '.', fraction))
  {
    SingleGroup([w], ',');
    KeyOf(prefix, [w], ',', '.', fraction, suffix);
    PlainRead(w, fraction);
  }

  /** So does the Indian grouping. */
  lemma IndianGroupingReadsBack(prefix: string, w: string, fraction: string, suffix: string)
    requires Foreign(prefix) && Number(w) && AllDigits(fraction) && Trails(suffix)
    ensures SortKey(prefix + Amount(Join(InLakhs(w), ','), '.', fraction) + suffix) ==
            Some(Amount(w, '.', fraction))
  {
    hide Join, Split, InPairs;
    var groups := InLakhs(w);
    LakhsOf(w);
    assert forall g :: g in groups ==> Number(g);
    KeyOf(prefix, groups, ',', '.', fraction, suffix);
    CommaShape(groups, fraction);
    UngroupsCommas(groups, fraction);
    if |groups| == 1 { SingleGroup(groups, ','); }
  }

  lemma CommaRead(w: string, fraction: string)
    requires Number(w) && Number(fraction)
    ensures Read(w + "," + fraction) == if |w| <= 3 && |fraction| == 3 then w + fraction else w + "." + fraction
  {
    hide Split, Join;
    var t := w + "," + fraction;
    assert Join([w, fraction], ',') == t by { assert [w, fraction][1..] == [fraction]; SingleGroup([fraction], ','); JoinPair(w, fraction, ','); }
    CommaShape([w, fraction], "");
    AmountSplit(w, ',', fraction);
    UngroupsCommas([w, fraction], "");
    CommaToDot(w, fraction);
    assert Concat([w, fraction]) == w + fraction by { assert Concat([fraction]) == fraction; assert [w, fraction][1..] == [fraction]; }
  }

  lemma JoinPair(a: string, b: string, sep: char)
    ensures Join([a, b], sep) == a + [sep] + b
  {
    assert [a, b][1..] == [b];
  }

  /** A decimal comma behind an ungrouped amount reads back unless it looks exactly like
      one comma group, in which case it is read as that. */
  lemma DecimalCommaReadsBack(prefix: string, w: string, fraction: string, suffix: string)
    requires Foreign(prefix) && Number(w) && Number(fraction) && Trails(suffix)
    ensures SortKey(prefix + w + "," + fraction + suffix) ==
            Some(if |w| <= 3 && |fraction| == 3 then w + fraction else w + "." + fraction)
  {
    SingleGroup([w], '.');
    KeyOf(prefix, [w], '.', ',', fraction, suffix);
    assert prefix + w + "," + fraction + suffix == prefix + Amount(w, ',', fraction) + suffix;
    CommaRead(w, fraction);
  }

  lemma {:induction false} JoinLast(groups: seq<string>, more: string, sep: char)
    requires groups != []
    ensures var last := |groups| - 1;
            Join(groups, sep) + more == Join(groups[..last] + [groups[last] + more], sep)
  {
    var last := |groups| - 1;
    if last > 0 {
      JoinLast(groups[1..], more, sep);
      var changed := groups[..last] + [groups[last] + more];
      assert changed[1..] == groups[1..][..last - 1] + [groups[1..][last - 1] + more];
      assert Join(changed, sep) == groups[0] + [sep] + Join(changed[1..], sep);
    }
  }

  /** Dot grouping before a decimal comma never looks like a dot decimal. */
  lemma DotShape(groups: seq<string>, fraction: string)
    requires |groups| > 1 && DigitGroups(groups) && Number(fraction)
    ensures var t := Amount(Join(groups, '.'), ',', fraction);
            && !DotDecimal(Split(t, '.'))
            && Split(t, ',') == [Join(groups, '.'), fraction] && Split(Join(groups, '.'), '.') == groups
  {
    hide Split, Join;
    var t := Amount(Join(groups, '.'), ',', fraction);
    var last := |groups| - 1;
    var more := "," + fraction;
    var changed := groups[..last] + [groups[last] + more];
    JoinLast(groups, more, '.');
    assert Join(groups, '.') + "," + fraction == Join(groups, '.') + more;
    forall g | g in changed ensures '.' !in g {
      if g !in groups { assert AllDigits(groups[last]) && g == groups[last] + more; }
    }
    SplitJoined(changed, '.');
    assert changed[last][|groups[last]|] == ',';
    NoOther(groups, '.', ',');
    AmountSplit(Join(groups, '.'), ',', fraction);
    SplitJoined(groups, '.');
  }

  /** Dot grouping reads back whenever it cannot be taken for something else: a single
      dot group with no decimals is a dot decimal, and an ungrouped amount with three
      decimals behind a comma is a comma group. */
  lemma DotGroupingReadsBack(prefix: string, w: string, fraction: string, suffix: string)
    requires Foreign(prefix) && Number(w) && AllDigits(fraction) && Trails(suffix)
    ensures SortKey(prefix + Amount(Join(InThousands(w), '.'), ',', fraction) + suffix) ==
            Some(if fraction == "" && 3 < |w| <= 6 then w[..|w| - 3] + "." + w[|w| - 3..]
                 else if |fraction| == 3 && |w| <= 3 then w + fraction
                 else Amount(w, '.', fraction))
  {
    hide Join, Split;
    var groups := InThousands(w);
    ThousandsOf(w);
    assert forall g :: g in groups ==> Number(g);
    KeyOf(prefix, groups, '.', ',', fraction, suffix);
    UngroupsDots(groups, fraction);
    if |groups| == 1 {
      SingleGroup(groups, '.');
      if fraction == "" { PlainRead(w, ""); } else { CommaRead(w, fraction); }
    } else if fraction != "" {
      DotShape(groups, fraction);
    } else if |groups| == 2 {
      JoinPair(groups[0], groups[1], '.');
      PlainRead(groups[0], groups[1]);
      assert groups == [groups[0], groups[1]];
      assert InThousands(w[..|w| - 3]) == [w[..|w| - 3]];
    } else {
      SplitJoined(groups, '.');
    }
  }

  /** A decimal part without its leading zero. */
  lemma BareDecimalReadsBack(prefix: string, sep: char, digits: string, suffix: string)
    requires Foreign(prefix) && IsSep(sep) && Number(digits) && Trails(suffix)
    ensures SortKey(prefix + [sep] + digits + suffix) ==
            Some(if sep == ',' && |digits| == 3 then "0" + digits else "0." + digits)
  {
    hide Read, Token;
    var t := [sep] + digits;
    assert prefix + [sep] + digits + suffix == prefix + t + suffix;
    assert Lexeme(t) by { assert t[1] == digits[0]; assert t[|t| - 1] == digits[|digits| - 1]; }
    TokenFound(prefix, t, suffix);
    assert SortKey(prefix + [sep] + digits + suffix) == Some(Read(ZeroPadded(t)));
    if sep == ',' {
      assert ZeroPadded(t) == "0" + "," + digits;
      CommaRead("0", digits);
      assert "0" + "." + digits == "0." + digits;
    } else {
      assert ZeroPadded(t) == Amount("0", '.', digits);
      PlainRead("0", digits);
      assert Amount("0", '.', digits) == "0." + digits;
    }
  }

  // ----- What the cast makes of it -----

  function Natural(s: string): nat
    requires AllDigits(s)
  {
    if s == "" then 0 else Natural(s[..|s| - 1]) * 10 + (s[|s| - 1] as int - '0' as int)
  }

  function Power10(n: nat): (p: nat)
    ensures p > 0
  {
    if n == 0 then 1 else 10 * Power10(n - 1)
  }

  /** The number a castable key stands for. */
  function Numeric(key: string): real {
    var d := Split(key, '.');
    var fraction := if |d| == 1 then "" else d[1];
    if AllDigits(d[0]) && AllDigits(fraction)
    then Natural(d[0]) as real + Natural(fraction) as real / Power10(|fraction|) as real
    else 0.0
  }

  lemma NumericOf(w: string, fraction: string)
    requires AllDigits(w) && AllDigits(fraction)
    ensures Numeric(Amount(w, '.', fraction)) == Natural(w) as real + Natural(fraction) as real / Power10(|fraction|) as real
  {
    AmountSplit(w, '.', fraction);
  }

  lemma {:induction false} LeadingZero(digits: string)
    requires AllDigits(digits)
    ensures AllDigits("0" + digits) && Natural("0" + digits) == Natural(digits)
  {
    if digits != "" {
      var init := digits[..|digits| - 1];
      LeadingZero(init);
      assert ("0" + digits)[..|digits|] == "0" + init;
    } else {
      assert "0" + digits == "0";
      assert Natural("0"[..0]) == 0;
    }
  }

  /** A bare decimal is read as the fraction it is, except behind a comma with exactly
      three digits, not all zero: those come back a thousand times too large, where the
      documentation promises that a key can only understate. */
  lemma BareDecimalIsItsFractionIff(prefix: string, sep: char, digits: string, suffix: string)
    requires Foreign(prefix) && IsSep(sep) && Number(digits) && Trails(suffix)
    ensures SortKey(prefix + [sep] + digits + suffix).Some?
    ensures var read := Numeric(SortKey(prefix + [sep] + digits + suffix).value);
            var meant := Natural(digits) as real / Power10(|digits|) as real;
            && (read == meant <==> !(sep == ',' && |digits| == 3 && Natural(digits) > 0))
            && (read != meant ==> read == 1000.0 * meant)
  {
    hide SortKey, Numeric, Natural, Power10;
    BareDecimalReadsBack(prefix, sep, digits, suffix);
    ZeroIs();
    if sep == ',' && |digits| == 3 {
      LeadingZero(digits);
      NumericOf("0" + digits, "");
      Thousandths(Natural(digits));
    } else {
      NumericOf("0", digits);
      assert Amount("0", '.', digits) == "0." + digits;
    }
  }

  lemma ZeroIs()
    ensures Natural("") == 0 && Natural("0") == 0 && Power10(0) == 1 && Power10(3) == 1000
  {
    LeadingZero("");
    assert Power10(1) == 10 && Power10(2) == 100;
  }

  lemma Thousandths(n: nat)
    ensures n as real == 1000.0 * (n as real / 1000.0)
    ensures n as real == n as real / 1000.0 <==> n == 0
  {
  }

  /** The input that shows it. */
  lemma BareThousandthsAreInflated()
    ensures SortKey("$,999") == Some("0999") && SortKey("$.999") == Some("0.999")
  {
    BareDecimalReadsBack("$", ',', "999", "");
    BareDecimalReadsBack("$", '.', "999", "");
    assert "$" + [','] + "999" + "" == "$,999";
    assert "$" + ['.'] + "999" + "" == "$.999";
    assert "0" + "999" == "0999" && "0." + "999" == "0.999";
  }
}
