/**
 The spellings an artist is known by in front of a title: with the article, without it, or
 with the article behind a comma, each comes off, and what is left is keyed as if it had
 never been there.
 */
module ArtistForms {
  import opened Options
  import opened Text
  import opened Pattern
  import opened TitleKey
  import opened RecordKeys
  import opened RecordAside
  import opened RecordFront

  /** A folded name without an article, and without a separator or white space at its ends. */
  predicate BareName(b: string) {
    && b != "" && SepFree(b) && !IsSpace(b[0]) && !IsSpace(b[|b| - 1])
    && !StartsAt(b, 0, "the ") && !EndsWith(b, ", the")
  }

  /** How the artist is written down, and how a store may then write it in front. */
  predicate Known(artist: string, b: string, lead: string) {
    var base := Strip(Fold(artist));
    || (base == b && lead == b)
    || (base == "the " + b && (lead == base || lead == b))
    || (base == b + ", the" && (lead == base || lead == "the " + b || lead == b))
  }

  function Led(lead: string, t: string): string { lead + " - " + t }

  /** A form no shorter than what leads is what leads. */
  lemma OnlyItself(lead: string, t: string, form: string)
    requires lead != "" && !IsSpace(lead[0]) && SepFree(lead)
    requires |form| >= |lead| && SepFree(form) && !IsSpace(form[|form| - 1])
    ensures Leads(Led(lead, t), form) ==> form == lead
  {
    var x := Led(lead, t);
    var n := |lead|;
    assert x[n] == ' ' && x[n + 1] == '-' && x[0] == lead[0];
    if Leads(x, form) {
      var j := LeadsAt(x, form);
      assert forall k :: 0 <= k < |form| ==> x[k] == form[k];
      assert |form| <= n + 1;
      assert x[..n] == lead;
      assert |form| == n ==> form == lead;
    }
  }

  lemma LeadComesOff(lead: string, t: string)
    requires lead != "" && !IsSpace(lead[0]) && t != "" && !IsSpace(t[0])
    ensures Leads(Led(lead, t), lead) && Led(lead, t)[LeadEnd(Led(lead, t), lead).value..] == t
  {
    var x := Led(lead, t);
    var n := |lead|;
    assert x[n] == ' ' && x[n + 1] == '-' && x[n + 2] == ' ' && x[n + 3] == t[0] && x[0] == lead[0];
    assert x[0..n] == lead && x[n + 3..] == t;
    SkipIs(x, 0, 0);
    SkipIs(x, n, n + 1);
    SkipIs(x, n + 2, n + 3);
    InkSomewhere(t, 0);
  }

  lemma FormsOf(artist: string, b: string)
    requires BareName(b)
    ensures Strip(Fold(artist)) == b ==> Forms(artist) == [b]
    ensures Strip(Fold(artist)) == "the " + b ==> Forms(artist) == ["the " + b, b]
    ensures Strip(Fold(artist)) == b + ", the" ==> Forms(artist) == [b + ", the", "the " + b, b]
  {
    var the := "the " + b;
    assert the[4..] == b && the[0..4] == "the ";
    if EndsWith(the, ", the") { ArticleAtBothEnds(b); }
    var comma := b + ", the";
    assert comma[|comma| - 5..] == ", the" && comma[..|comma| - 5] == b;
    if StartsAt(comma, 0, "the ") { ArticleInFront(b); }
  }

  lemma ArticleAtBothEnds(b: string)
    requires EndsWith("the " + b, ", the") && b != ""
    ensures EndsWith(b, ", the")
  {
    var the := "the " + b;
    var tail := the[|the| - 5..];
    assert tail == ", the" && tail[0] == ',';
    assert |b| >= 5 ==> b[|b| - 5..] == tail;
    assert the[|the| - 5] == ',';
    assert forall k :: 0 <= k < 4 ==> the[k] == "the "[k];
  }

  lemma ArticleInFront(b: string)
    requires StartsAt(b + ", the", 0, "the ") && b != "" && !IsSpace(b[|b| - 1])
    ensures StartsAt(b, 0, "the ")
  {
    var comma := b + ", the";
    var head := comma[0..4];
    assert head == "the " && head[1] == 'h' && head[2] == 'e' && head[3] == ' ';
    assert comma[|b|] == ',' && comma[|b| + 1] == ' ';
    assert |b| >= 4 ==> b[0..4] == head;
    assert comma[0] == head[0] && comma[1] == head[1] && comma[2] == head[2] && comma[3] == head[3];
  }

  lemma FirstComesOff(x: string, form: string, rest: seq<string>, t: string)
    requires LeadEnd(x, form).Some? && Leads(x, form) && x[LeadEnd(x, form).value..] == t
    ensures StripForms(x, [form] + rest) == t
  {
    hide Leads, LeadEnd;
  }

  lemma FirstStays(x: string, form: string, rest: seq<string>)
    requires !Leads(x, form)
    ensures StripForms(x, [form] + rest) == StripForms(x, rest)
  {
    hide Leads;
    assert ([form] + rest)[1..] == rest;
  }

  lemma LeadIs(x: string, form: string)
    requires Leads(x, form)
    ensures LeadEnd(x, form).Some?
  {
  }

  lemma EveryFormComesOff(artist: string, b: string, lead: string, t: string)
    requires BareName(b) && Known(artist, b, lead) && t != "" && !IsSpace(t[0])
    ensures StripForms(Led(lead, t), Forms(artist)) == t
  {
    hide BareName, Leads, LeadEnd, Forms, StripForms;
    var x := Led(lead, t);
    var base, the, comma := Strip(Fold(artist)), "the " + b, b + ", the";
    FormsOf(artist, b);
    Shapes(b);
    Different(b);
    LeadComesOff(lead, t);
    LeadIs(x, lead);
    if base == comma && lead != comma {
      OnlyItself(lead, t, comma);
      FirstStays(x, comma, [the, b]);
      assert [comma] + [the, b] == [comma, the, b];
    }
    if lead == b && base != b {
      OnlyItself(lead, t, the);
      FirstStays(x, the, [b]);
      assert [the] + [b] == [the, b];
    }
    if lead == b { FirstComesOff(x, b, [], t); } else if lead == the { FirstComesOff(x, the, [b], t); } else { FirstComesOff(x, comma, [the, b], t); }
    assert [b] + [] == [b] && [the] + [b] == [the, b] && [comma] + [the, b] == [comma, the, b];
  }

  lemma Shapes(b: string)
    requires BareName(b)
    ensures b != "" && !IsSpace(b[0]) && SepFree(b) && !IsSpace(b[|b| - 1])
    ensures var the := "the " + b; !IsSpace(the[0]) && SepFree(the) && !IsSpace(the[|the| - 1]) && |the| == |b| + 4
    ensures var comma := b + ", the"; !IsSpace(comma[0]) && SepFree(comma) && !IsSpace(comma[|comma| - 1]) && |comma| == |b| + 5
  {
    var the, comma := "the " + b, b + ", the";
    forall i | 0 <= i < |the| ensures !IsSep(the[i]) {
      assert the[i] == if i < 4 then "the "[i] else b[i - 4];
    }
    forall i | 0 <= i < |comma| ensures !IsSep(comma[i]) {
      assert comma[i] == if i < |b| then b[i] else ", the"[i - |b|];
    }
  }

  lemma Different(b: string)
    ensures "the " + b != b && b + ", the" != b && b + ", the" != "the " + b
  {
    assert |b + ", the"| == |b| + 5 && |"the " + b| == |b| + 4;
  }

  /** Whichever of its spellings a store writes in front, with its article or without, the
      title is prepared for its key as the same title without the artist. */
  lemma ArtistFormsAreForgotten(v: Vocabulary, artist: string, b: string, lead: string, title: string, rest: string, forRecord: bool)
    requires BareName(b) && Known(artist, b, lead) && artist != ""
    requires Fold(title) == Led(lead, Fold(rest)) && Fold(rest) != "" && !IsSpace(Fold(rest)[0])
    ensures Prepared(title, Some(artist), forRecord) == Prepared(rest, None, forRecord)
    ensures HasWord(rest, None, forRecord) ==> Key(v, title, Some(artist), forRecord) == Key(v, rest, None, forRecord)
  {
    hide StripForms, Sub, Replaced, Words, Cleaned, Known, BareName;
    EveryFormComesOff(artist, b, lead, Fold(rest));
  }
}
