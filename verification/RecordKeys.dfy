/**
 `record_key` of `backend/title_key.py`: the key of the record a title is a pressing of.
 The artist is taken off the front, pressing wording is dropped where a store has fenced
 it off, and what is left is keyed by `TitleKey`.
 */
module RecordKeys {
  import opened Options
  import opened Text
  import opened Pattern
  import opened TitleKey

  // ----- The artist in front -----

  function Collapsed(s: string): string {
    if s == "" then ""
    else if IsSpace(s[0]) then
      var rest := Collapsed(s[1..]);
      if rest != "" && rest[0] == ' ' then rest else " " + rest
    else [s[0]] + Collapsed(s[1..])
  }

  /** `_punct_fold`, on text that is already lower case. */
  function PunctFold(s: string): string {
    Strip(Collapsed(Replaced(Replaced(s, '&', " and "), '-', " ")))
  }

  /** The spelling two artists are compared in: `_artist_bare_key`. */
  function BareKey(text: string): string {
    var base := PunctFold(Fold(text));
    if StartsAt(base, 0, "the ") && |base| > 4 then base[4..]
    else if EndsWith(base, ", the") && |base| > 5 then base[..|base| - 5]
    else base
  }

  /** Where an artist's name ends in a title: nowhere, behind a separator, or somewhere the
      folded text shows but the raw text does not. */
  datatype Front = NoArtist | Unlocated | Located(end: nat)

  /** The first separator from `i` on whose left side is the artist. */
  function Boundary(title: string, wanted: string, i: nat): (e: Option<nat>)
    requires i <= |title|
    ensures e.Some? ==> i < e.value < |title|
    decreases |title| - i
  {
    if i == |title| then None
    else
      var sep := SepEnd(title, i);
      if sep.None? then Boundary(title, wanted, i + 1)
      else if HasInk(title[..i]) && HasInk(title[sep.value..]) && BareKey(title[..i]) == wanted then sep
      else Boundary(title, wanted, sep.value)
  }

  predicate LedByAny(s: string, forms: seq<string>) { exists f :: f in forms && Leads(s, f) }

  /** `_split_leading_artist` */
  function SplitFront(title: string, artist: Option<string>): (f: Front)
    ensures f.Located? ==> 0 < f.end < |title|
  {
    if artist.None? || artist.value == "" || BareKey(artist.value) == "" then NoArtist
    else
      var found := Boundary(title, BareKey(artist.value), 0);
      if found.Some? then Located(found.value)
      else if LedByAny(Fold(title), Forms(artist.value)) then Unlocated
      else NoArtist
  }

  // ----- Pressing wording -----

  /** `_is_variant_segment` */
  predicate IsVariant(v: Vocabulary, text: string) {
    var folded := Fold(text);
    var words := Words(Cleaned(PHRASES + [BOX_SET], folded));
    if words == [] then Words(folded) != []
    else
      && (exists w :: w in words && (w in v.noise || w in v.variant))
      && (forall w :: w in words ==> w in v.noise || w in v.variant || Digits(w))
  }

  predicate Digits(w: string) { w != "" && forall i :: 0 <= i < |w| ==> IsDigit(w[i]) }

  function CloserOf(c: char): Option<char> {
    if c == '(' then Some(')') else if c == '[' then Some(']') else if c == '{' then Some('}') else None
  }

  /** The first `c` from `i` on. */
  function Find(s: string, c: char, i: nat): (j: Option<nat>)
    requires i <= |s|
    ensures j.Some? ==> i <= j.value < |s| && s[j.value] == c && forall k :: i <= k < j.value ==> s[k] != c
    ensures j.None? ==> forall k :: i <= k < |s| ==> s[k] != c
    decreases |s| - i
  {
    if i == |s| then None else if s[i] == c then Some(i) else Find(s, c, i + 1)
  }

  /** The closer of the bracket at `i`, if `i` holds one and it is closed. */
  function BracketEnd(s: string, i: nat): (j: Option<nat>)
    requires i < |s|
    ensures j.Some? ==> i < j.value < |s|
  {
    if CloserOf(s[i]).None? then None else Find(s, CloserOf(s[i]).value, i + 1)
  }

  /** The text from `i` on without the bracketed asides that only name a pressing. */
  function Unfenced(v: Vocabulary, s: string, i: nat): string
    requires i <= |s|
    decreases |s| - i
  {
    if i == |s| then ""
    else
      var close := BracketEnd(s, i);
      if close.None? then [s[i]] + Unfenced(v, s, i + 1)
      else
        var aside := s[i..close.value + 1];
        (if IsVariant(v, aside) then "" else aside) + Unfenced(v, s, close.value + 1)
  }

  /** Where `\s+-\s+` or `\s*[–—]\s*` matched at `i` ends. */
  function SegmentEnd(s: string, i: nat): (e: Option<nat>)
    requires i <= |s|
    ensures e.Some? ==> i < e.value <= |s|
  {
    var j := Skip(s, i);
    if j < |s| && ((s[j] == '-' && i < j && j + 1 < |s| && IsSpace(s[j + 1])) || s[j] == EN_DASH || s[j] == EM_DASH)
    then Some(Skip(s, j + 1)) else None
  }

  /** The pieces `_SEGMENT_SPLIT` leaves, where the current one began at `start`. */
  function Segments(s: string, start: nat, i: nat): (parts: seq<string>)
    requires start <= i <= |s|
    ensures parts != []
    decreases |s| - i
  {
    if i == |s| then [s[start..]]
    else
      var e := SegmentEnd(s, i);
      if e.Some? then [s[start..i]] + Segments(s, e.value, e.value) else Segments(s, start, i + 1)
  }

  /** The pieces without the pressing wording at the end; the first is never dropped. */
  function Trimmed(v: Vocabulary, parts: seq<string>): (kept: seq<string>)
    requires parts != []
    ensures kept != [] && kept <= parts
  {
    if |parts| > 1 && IsVariant(v, parts[|parts| - 1]) then Trimmed(v, parts[..|parts| - 1]) else parts
  }

  /** The pieces with anything in them, put back together. */
  function Rejoined(parts: seq<string>): string {
    if parts == [] then ""
    else
      var before, last := Rejoined(parts[..|parts| - 1]), parts[|parts| - 1];
      if !HasInk(last) then before else if Inked(parts[..|parts| - 1]) then before + " - " + last else last
  }

  predicate Inked(parts: seq<string>) { exists p :: p in parts && HasInk(p) }

  /** `rebuilt` */
  function Rebuilt(v: Vocabulary, stripped: string): string {
    Strip(Rejoined(Trimmed(v, Segments(stripped, 0, 0))))
  }

  function Body(title: string, front: Front): string
    requires front.Located? ==> front.end <= |title|
  {
    if front.Located? then title[front.end..] else title
  }

  function RecordKey(v: Vocabulary, title: string, artist: Option<string>): string {
    var front := SplitFront(title, artist);
    var stripped := Unfenced(v, Body(title, front), 0);
    if front.Unlocated? then Key(v, if HasInk(stripped) then stripped else title, artist, true)
    else if Rebuilt(v, stripped) == "" then Key(v, title, artist, true)
    else Key(v, Rebuilt(v, stripped), if front.NoArtist? then artist else None, true)
  }

  /** The same, as it is written: the list of pieces is popped in a loop. */
  method ComputeRecordKey(v: Vocabulary, title: string, artist: Option<string>) returns (key: string)
    ensures key == RecordKey(v, title, artist)
  {
    var front := SplitFront(title, artist);
    var stripped := Unfenced(v, Body(title, front), 0);
    if front.Unlocated? {
      return Key(v, if HasInk(stripped) then stripped else title, artist, true);
    }
    var parts := Segments(stripped, 0, 0);
    while |parts| > 1 && IsVariant(v, parts[|parts| - 1])
      invariant parts != [] && Trimmed(v, parts) == Trimmed(v, Segments(stripped, 0, 0))
    {
      parts := parts[..|parts| - 1];
    }
    var rebuilt := Strip(Rejoined(parts));
    if rebuilt == "" { return Key(v, title, artist, true); }
    key := Key(v, rebuilt, if front.NoArtist? then artist else None, true);
  }
}
