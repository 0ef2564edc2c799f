/**
 The string operations the parsers and the chunker are built from: white space,
 `strip`, `find` and `rfind`, over sequences of characters.
 */
module Text {

  /** `str.isspace`, which `strip` and the `\s` of a pattern share. */
  predicate IsSpace(c: char): (r: bool)
    ensures (c as int) < 0x80 ==> (r <==> c in " \t\n\r\U{0b}\U{0c}\U{1c}\U{1d}\U{1e}\U{1f}")
  {
    var u := c as int;
    || 0x09 <= u <= 0x0d || 0x1c <= u <= 0x20 || u == 0x85 || u == 0xa0 || u == 0x1680
    || 0x2000 <= u <= 0x200a || u == 0x2028 || u == 0x2029 || u == 0x202f || u == 0x205f || u == 0x3000
  }

  ghost predicate Blank(s: string) {
    forall i | 0 <= i < |s| :: IsSpace(s[i])
  }

  /** How much white space `lstrip` drops. */
  function Lead(s: string): (n: nat)
    ensures n <= |s|
    ensures forall i | 0 <= i < n :: IsSpace(s[i])
    ensures n < |s| ==> !IsSpace(s[n])
  {
    if |s| == 0 || !IsSpace(s[0]) then 0 else 1 + Lead(s[1..])
  }

  /** How much white space `rstrip` drops. */
  function Trail(s: string): (n: nat)
    ensures n <= |s|
    ensures forall i | |s| - n <= i < |s| :: IsSpace(s[i])
    ensures n < |s| ==> !IsSpace(s[|s| - n - 1])
  {
    if |s| == 0 || !IsSpace(s[|s| - 1]) then 0 else 1 + Trail(s[..|s| - 1])
  }

  function Strip(s: string): string {
    var t := s[Lead(s)..];
    t[..|t| - Trail(t)]
  }

  /** Stripping keeps one slice of the text, and everything visible is in it. */
  lemma StripIsSlice(s: string)
    ensures Lead(s) + |Strip(s)| <= |s|
    ensures Strip(s) == s[Lead(s)..Lead(s) + |Strip(s)|]
    ensures Strip(s) == "" <==> Blank(s)
    ensures forall i | 0 <= i < |s| && !IsSpace(s[i]) :: Lead(s) <= i < Lead(s) + |Strip(s)|
    ensures Strip(s) != "" ==> !IsSpace(Strip(s)[0]) && !IsSpace(Strip(s)[|Strip(s)| - 1])
  {
    hide IsSpace, Lead, Trail;
    var t := s[Lead(s)..];
    assert forall i | Lead(s) <= i < |s| :: s[i] == t[i - Lead(s)];
  }

  predicate Occurs(text: string, sub: string, i: int) {
    0 <= i && i + |sub| <= |text| && text[i..i + |sub|] == sub
  }

  /** `text.find(sub, from)`. */
  function Find(text: string, sub: string, from: nat): (r: int)
    ensures r == -1 || (from <= r && Occurs(text, sub, r))
    ensures forall i | from <= i && Occurs(text, sub, i) :: 0 <= r <= i
    decreases |text| - from
  {
    if from + |sub| > |text| then -1
    else if text[from..from + |sub|] == sub then from
    else Find(text, sub, from + 1)
  }

  /** `text.rfind(sub)`, looking no further right than `upTo`. */
  function RFindFrom(text: string, sub: string, upTo: int): (r: int)
    requires upTo + |sub| <= |text|
    ensures r == -1 || Occurs(text, sub, r)
    ensures r <= upTo || r == -1
    ensures forall i | 0 <= i <= upTo && Occurs(text, sub, i) :: i <= r
    decreases upTo
  {
    if upTo < 0 then -1
    else if text[upTo..upTo + |sub|] == sub then upTo
    else RFindFrom(text, sub, upTo - 1)
  }

  /** `text.rfind(sub)`. */
  function RFind(text: string, sub: string): (r: int)
    ensures r == -1 || Occurs(text, sub, r)
    ensures forall i | Occurs(text, sub, i) :: i <= r
  {
    RFindFrom(text, sub, |text| - |sub|)
  }
}
