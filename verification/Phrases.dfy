/**
 The phrases of `backend/title_key.py` as a store writes them: every spelling of a size, a
 weight or a count is found.
 */
module Phrases {
  import opened Options
  import opened Text
  import opened Pattern
  import opened TitleKey

  /** White space, a hyphen or none, and white space. */
  predicate Joint(a: string, dash: string, b: string) { AllSpace(a) && AllSpace(b) && (dash == "" || dash == "-") }

  lemma Standing(before: string, x: string, after: string)
    ensures var s := before + x + after; StartsAt(s, |before|, x)
    ensures AllSpace(x) ==> SpacesTo(before + x + after, |before|, |before + x|)
  {
    var s := before + x + after;
    assert s[|before|..|before| + |x|] == x;
    assert forall k :: |before| <= k < |before + x| ==> s[k] == x[k - |before|];
  }

  lemma TakesSpaces(p: Regex, s: string, i: nat, j: nat, e: nat)
    requires p != [] && p[0] == Spaces && SpacesTo(s, i, j) && Derives(p[1..], s, j, e)
    ensures Derives(p, s, i, e)
  {
  }

  lemma TakesOne(p: Regex, w: string, s: string, i: nat, e: nat)
    requires p != [] && (p[0].OneOf? || p[0].Perhaps?) && w in p[0].words && StartsAt(s, i, w) && Derives(p[1..], s, i + |w|, e)
    ensures Derives(p, s, i, e)
  {
  }

  lemma PassesBy(p: Regex, s: string, i: nat, e: nat)
    requires p != [] && (p[0].Perhaps? || p[0].PerhapsDigit?) && Derives(p[1..], s, i, e)
    ensures Derives(p, s, i, e)
  {
  }

  lemma TakesGap(p: Regex, front: string, space: string, back: string, e: nat)
    requires p != [] && p[0] == Spaces && AllSpace(space) && Derives(p[1..], front + space + back, |front + space|, e)
    ensures Derives(p, front + space + back, |front|, e)
  {
    hide Derives;
    Standing(front, space, back);
    TakesSpaces(p, front + space + back, |front|, |front + space|, e);
  }

  lemma TakesDash(p: Regex, front: string, dash: string, back: string, e: nat)
    requires p != [] && p[0] == DASH && (dash == "" || dash == "-") && Derives(p[1..], front + dash + back, |front + dash|, e)
    ensures Derives(p, front + dash + back, |front|, e)
  {
    hide Derives;
    Standing(front, dash, back);
    if dash == "" { PassesBy(p, front + dash + back, |front|, e); } else { TakesOne(p, dash, front + dash + back, |front|, e); }
  }

  lemma Associates(front: string, a: string, dash: string, b: string, back: string)
    ensures front + a + dash + b + back == front + a + dash + (b + back)
    ensures front + a + dash + b + back == front + a + (dash + b + back)
    ensures front + a + dash + (b + back) == front + a + dash + b + back
  {
    assert (front + a + dash) + b + back == (front + a + dash) + (b + back);
    assert (front + a) + dash + (b + back) == (front + a) + (dash + b + back);
  }

  /** The joint that stands in front of the last part of every phrase. */
  lemma TakesJoint(p: Regex, front: string, a: string, dash: string, b: string, back: string, e: nat)
    requires |p| >= 3 && p[0] == Spaces && p[1] == DASH && p[2] == Spaces && Joint(a, dash, b)
    requires var s := front + a + dash + b + back; Derives(p[3..], s, |front + a + dash + b|, e)
    ensures Derives(p, front + a + dash + b + back, |front|, e)
  {
    hide Derives;
    Associates(front, a, dash, b, back);
    assert p[1..][1..] == p[2..] && p[2..][1..] == p[3..] && p[1..][0] == p[1] && p[2..][0] == p[2];
    TakesGap(p[2..], front + a + dash, b, back, e);
    TakesDash(p[1..], front + a, dash, b + back, e);
    TakesGap(p, front, a, dash + b + back, e);
  }

  lemma TakesEdge(p: Regex, s: string, i: nat, e: nat)
    requires p != [] && ((p[0] == Edge && AtEdge(s, i)) || (p[0] == Break && !WordAt(s, i))) && Derives(p[1..], s, i, e)
    ensures Derives(p, s, i, e)
  {
  }

  lemma TakesDigit(p: Regex, s: string, i: nat, e: nat)
    requires p != [] && (p[0] == Digit || p[0] == PerhapsDigit) && DigitAt(s, i) && Derives(p[1..], s, i + 1, e)
    ensures Derives(p, s, i, e)
  {
  }

  lemma Done(s: string, e: nat)
    ensures Derives([], s, e, e)
  {
  }

  lemma SizeEnds(front: string, unit: string)
    requires unit in ["\"", "''", RIGHT_DOUBLE_QUOTE, "inch", "in.", "in"]
    ensures Derives(SIZE[5..], front + unit, |front|, |front + unit|)
  {
    hide Derives;
    var s := front + unit;
    Done(s, |s|);
    assert SIZE[6..][1..] == [] && SIZE[6..][0] == Break;
    TakesEdge(SIZE[6..], s, |s|, |s|);
    Standing(front, unit, "");
    assert s + "" == s;
    assert SIZE[5..][1..] == SIZE[6..] && SIZE[5..][0] == SIZE[5];
    TakesOne(SIZE[5..], unit, s, |front|, |s|);
  }

  lemma SizeBegins(size: string, rest: string)
    requires size in ["7", "10", "12"] && Derives(SIZE[2..], size + rest, |size|, |size + rest|)
    ensures Derives(SIZE, size + rest, 0, |size + rest|)
  {
    hide Derives;
    var s := size + rest;
    Standing("", size, rest);
    assert "" + size + rest == s;
    assert SIZE[1..][1..] == SIZE[2..] && SIZE[1..][0] == SIZE[1];
    TakesOne(SIZE[1..], size, s, 0, |s|);
    assert s[0] == size[0] && IsDigit(size[0]);
    TakesEdge(SIZE, s, 0, |s|);
  }

  lemma SizeJoint()
    ensures |SIZE| >= 5 && |SIZE[2..]| >= 3 && SIZE[2..][0] == Spaces && SIZE[2..][1] == DASH && SIZE[2..][2] == Spaces && SIZE[2..][3..] == SIZE[5..]
  {
  }

  lemma SizeIsFound(size: string, a: string, dash: string, b: string, unit: string)
    requires size in ["7", "10", "12"] && Joint(a, dash, b)
    requires unit in ["\"", "''", RIGHT_DOUBLE_QUOTE, "inch", "in.", "in"]
    ensures var s := size + a + dash + b + unit; Derives(SIZE, s, 0, |s|)
  {
    hide Derives, SIZE, Joint;
    SizeEnds(size + a + dash + b, unit);
    SizeJoint();
    TakesJoint(SIZE[2..], size, a, dash, b, unit, |size + a + dash + b + unit|);
    Five(size, a, dash, b, unit);
    SizeBegins(size, a + dash + b + unit);
  }

  lemma WeightEnds(front: string, unit: string)
    requires unit in ["g", "gm", "gr", "gram", "grams"]
    ensures Derives(WEIGHT[7..], front + unit, |front|, |front + unit|)
  {
    hide Derives;
    var s := front + unit;
    var n := |s|;
    Done(s, n);
    Standing(front, unit, "");
    assert s + "" == s;
    assert WEIGHT[8..][1..] == [] && WEIGHT[8..][0] == Edge;
    assert IsAlnum(unit[|unit| - 1]) && s[n - 1] == unit[|unit| - 1];
    TakesEdge(WEIGHT[8..], s, n, n);
    assert WEIGHT[7..][1..] == WEIGHT[8..] && WEIGHT[7..][0] == WEIGHT[7];
    TakesOne(WEIGHT[7..], unit, s, |front|, n);
  }

  lemma WeightBegins(grams: string, rest: string)
    requires 2 <= |grams| <= 3 && (forall i :: 0 <= i < |grams| ==> IsDigit(grams[i]))
    requires Derives(WEIGHT[4..], grams + rest, |grams|, |grams + rest|)
    ensures Derives(WEIGHT, grams + rest, 0, |grams + rest|)
  {
    hide Derives;
    var s := grams + rest;
    var n := |s|;
    assert forall i :: 0 <= i < |grams| ==> s[i] == grams[i];
    assert WEIGHT[3..][1..] == WEIGHT[4..] && WEIGHT[3..][0] == PerhapsDigit;
    if |grams| == 3 { TakesDigit(WEIGHT[3..], s, 2, n); } else { PassesBy(WEIGHT[3..], s, 2, n); }
    assert WEIGHT[2..][1..] == WEIGHT[3..] && WEIGHT[1..][1..] == WEIGHT[2..];
    TakesDigit(WEIGHT[2..], s, 1, n);
    TakesDigit(WEIGHT[1..], s, 0, n);
    TakesEdge(WEIGHT, s, 0, n);
  }

  lemma WeightJoint()
    ensures |WEIGHT| >= 7 && |WEIGHT[4..]| >= 3 && WEIGHT[4..][0] == Spaces && WEIGHT[4..][1] == DASH && WEIGHT[4..][2] == Spaces
    ensures WEIGHT[4..][3..] == WEIGHT[7..]
  {
  }

  lemma WeightIsFound(grams: string, a: string, dash: string, b: string, unit: string)
    requires 2 <= |grams| <= 3 && (forall i :: 0 <= i < |grams| ==> IsDigit(grams[i])) && Joint(a, dash, b)
    requires unit in ["g", "gm", "gr", "gram", "grams"]
    ensures var s := grams + a + dash + b + unit; Derives(WEIGHT, s, 0, |s|)
  {
    hide Derives, WEIGHT, Joint;
    WeightEnds(grams + a + dash + b, unit);
    WeightJoint();
    TakesJoint(WEIGHT[4..], grams, a, dash, b, unit, |grams + a + dash + b + unit|);
    Five(grams, a, dash, b, unit);
    WeightBegins(grams, a + dash + b + unit);
  }

  lemma CountEnds(front: string, disc: string, plural: string)
    requires (disc == "lp" || disc == "ep") && (plural == "" || plural == "s")
    ensures Derives(COUNT[9..], front + (disc + plural), |front|, |front + (disc + plural)|)
  {
    hide Derives;
    var s := front + (disc + plural);
    var n := |s|;
    Done(s, n);
    assert COUNT[11..][1..] == [] && COUNT[11..][0] == Edge;
    assert s[n - 1] == (if plural == "" then disc[1] else plural[0]);
    TakesEdge(COUNT[11..], s, n, n);
    Standing(front + disc, plural, "");
    assert front + disc + plural + "" == s;
    assert COUNT[10..][1..] == COUNT[11..] && COUNT[10..][0] == COUNT[10];
    if plural == "" { PassesBy(COUNT[10..], s, n, n); } else { TakesOne(COUNT[10..], plural, s, n - 1, n); }
    Standing(front, disc, plural);
    assert front + disc + plural == s;
    assert COUNT[9..][1..] == COUNT[10..] && COUNT[9..][0] == COUNT[9];
    TakesOne(COUNT[9..], disc, s, |front|, n);
  }

  lemma CountTimes(front: string, x: string, rest: string)
    requires (x == "" || x == "x") && Derives(COUNT[6..], front + x + rest, |front + x|, |front + x + rest|)
    ensures Derives(COUNT[5..], front + x + rest, |front|, |front + x + rest|)
  {
    hide Derives;
    var s := front + x + rest;
    Standing(front, x, rest);
    assert COUNT[5..][1..] == COUNT[6..] && COUNT[5..][0] == COUNT[5];
    if x == "" { PassesBy(COUNT[5..], s, |front|, |s|); } else { TakesOne(COUNT[5..], x, s, |front|, |s|); }
  }

  lemma CountBegins(count: char, rest: string)
    requires IsDigit(count) && Derives(COUNT[2..], [count] + rest, 1, |[count] + rest|)
    ensures Derives(COUNT, [count] + rest, 0, |[count] + rest|)
  {
    hide Derives;
    var s := [count] + rest;
    assert COUNT[1..][1..] == COUNT[2..] && COUNT[1..][0] == Digit && s[0] == count;
    TakesDigit(COUNT[1..], s, 0, |s|);
    TakesEdge(COUNT, s, 0, |s|);
  }

  lemma CountJoints()
    ensures |COUNT| >= 9 && |COUNT[6..]| >= 3 && COUNT[6..][0] == Spaces && COUNT[6..][1] == DASH && COUNT[6..][2] == Spaces && COUNT[6..][3..] == COUNT[9..]
    ensures |COUNT[2..]| >= 3 && COUNT[2..][0] == Spaces && COUNT[2..][1] == DASH && COUNT[2..][2] == Spaces && COUNT[2..][3..] == COUNT[5..]
  {
  }

  lemma CountIsFound(count: char, a: string, dash: string, b: string, x: string,
                     c: string, dash2: string, d: string, disc: string, plural: string)
    requires IsDigit(count) && Joint(a, dash, b) && (x == "" || x == "x") && Joint(c, dash2, d)
    requires (disc == "lp" || disc == "ep") && (plural == "" || plural == "s")
    ensures var s := [count] + a + dash + b + x + c + dash2 + d + (disc + plural); Derives(COUNT, s, 0, |s|)
  {
    hide Derives, COUNT, Joint;
    var front, back := [count] + a + dash + b, disc + plural;
    var s := front + x + c + dash2 + d + back;
    CountJoints();
    CountEnds(front + x + c + dash2 + d, disc, plural);
    TakesJoint(COUNT[6..], front + x, c, dash2, d, back, |s|);
    var rest := c + dash2 + d + back;
    Five(front + x, c, dash2, d, back);
    CountTimes(front, x, rest);
    assert front + x + rest == front + (x + rest);
    TakesJoint(COUNT[2..], [count], a, dash, b, x + rest, |s|);
    Five([count], a, dash, b, x + rest);
    CountBegins(count, a + dash + b + (x + rest));
  }

  lemma Five(p: string, q: string, r: string, s: string, t: string)
    ensures p + q + r + s + t == p + (q + r + s + t)
  {
  }

  /** Every spelling a store has for a disc's size, weight or number is found as one:
      `12"`, `7 - inch`, `180g`, `2 x LPs`. */
  lemma EverySpellingIsFound(number: string, a: string, dash: string, b: string, unit: string)
    requires Joint(a, dash, b)
    ensures number in ["7", "10", "12"] && unit in ["\"", "''", RIGHT_DOUBLE_QUOTE, "inch", "in.", "in"] ==>
              Match(SIZE, number + a + dash + b + unit, 0).Some?
    ensures 2 <= |number| <= 3 && (forall i :: 0 <= i < |number| ==> IsDigit(number[i])) && unit in ["g", "gm", "gr", "gram", "grams"] ==>
              Match(WEIGHT, number + a + dash + b + unit, 0).Some?
    ensures forall x, c, dash2, d ::
              |number| == 1 && IsDigit(number[0]) && unit in ["lp", "ep", "lps", "eps"] && x in ["", "x"] && Joint(c, dash2, d) ==>
              Match(COUNT, number + a + dash + b + x + c + dash2 + d + unit, 0).Some?
  {
    hide Derives, Match, SIZE, WEIGHT, COUNT;
    var s := number + a + dash + b + unit;
    if number in ["7", "10", "12"] && unit in ["\"", "''", RIGHT_DOUBLE_QUOTE, "inch", "in.", "in"] {
      SizeIsFound(number, a, dash, b, unit);
      MatchFinds(SIZE, s, 0, |s|);
    }
    if 2 <= |number| <= 3 && (forall i :: 0 <= i < |number| ==> IsDigit(number[i])) && unit in ["g", "gm", "gr", "gram", "grams"] {
      WeightIsFound(number, a, dash, b, unit);
      MatchFinds(WEIGHT, s, 0, |s|);
    }
    forall x, c, dash2, d |
      |number| == 1 && IsDigit(number[0]) && unit in ["lp", "ep", "lps", "eps"] && x in ["", "x"] && Joint(c, dash2, d)
      ensures Match(COUNT, number + a + dash + b + x + c + dash2 + d + unit, 0).Some?
    {
      assert unit == "lp" || unit == "ep" || unit == "lps" || unit == "eps";
      var disc, plural := unit[..2], unit[2..];
      var t := number + a + dash + b + x + c + dash2 + d + unit;
      assert [number[0]] == number && unit == disc + plural;
      CountIsFound(number[0], a, dash, b, x, c, dash2, d, disc, plural);
      MatchFinds(COUNT, t, 0, |t|);
    }
  }
}
