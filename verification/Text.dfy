/** The few string operations of the Python library that the models need. */
module Text {
  import opened Prelude

  predicate OccursAt(text: string, pattern: string, i: nat) {
    i + |pattern| <= |text| && text[i..i + |pattern|] == pattern
  }

  predicate Contains(text: string, pattern: string) {
    exists i | 0 <= i <= |text| :: OccursAt(text, pattern, i)
  }

  /** `str.find` with a start position. */
  function Find(text: string, pattern: string, from: nat): (r: Option<nat>)
    requires from <= |text|
    ensures r.Some? ==> from <= r.value && OccursAt(text, pattern, r.value)
    ensures forall i | from <= i < (if r.Some? then r.value else |text| + 1) :: !OccursAt(text, pattern, i)
    decreases |text| - from
  {
    if OccursAt(text, pattern, from) then Some(from)
    else if from == |text| then None
    else Find(text, pattern, from + 1)
  }

  /** The characters `str.rstrip` removes. */
  predicate IsSpace(c: char) {
    || '\t' <= c <= '\r' || '\U{1C}' <= c <= ' ' || c == '\U{85}' || c == '\U{A0}' || c == '\U{1680}'
    || '\U{2000}' <= c <= '\U{200A}' || c == '\U{2028}' || c == '\U{2029}' || c == '\U{202F}'
    || c == '\U{205F}' || c == '\U{3000}'
  }

  /** The codes of the white space of Unicode, of which five are controls and four separators of old. */
  lemma SpaceExactly(c: char)
    ensures IsSpace(c) <==>
            c as int in {0x9, 0xA, 0xB, 0xC, 0xD, 0x1C, 0x1D, 0x1E, 0x1F, 0x20, 0x85, 0xA0, 0x1680, 0x2000, 0x2001,
                         0x2002, 0x2003, 0x2004, 0x2005, 0x2006, 0x2007, 0x2008, 0x2009, 0x200A, 0x2028, 0x2029,
                         0x202F, 0x205F, 0x3000}
  {
  }

  function RStrip(text: string): (r: string)
    ensures r <= text
    ensures r != "" ==> !IsSpace(r[|r| - 1])
    ensures forall i | |r| <= i < |text| :: IsSpace(text[i])
  {
    if text != "" && IsSpace(text[|text| - 1]) then RStrip(text[..|text| - 1]) else text
  }

  /** Those three facts determine the result. */
  lemma {:induction false} RStripUnique(text: string, r: string)
    requires r <= text && (r != "" ==> !IsSpace(r[|r| - 1])) && forall i | |r| <= i < |text| :: IsSpace(text[i])
    ensures RStrip(text) == r
  {
    var s := RStrip(text);
    assert r == text[..|r|] && s == text[..|s|];
    assert r != "" ==> !IsSpace(text[|r| - 1]);
    assert s != "" ==> !IsSpace(text[|s| - 1]);
  }

  lemma RStripTwice(text: string)
    ensures RStrip(RStrip(text)) == RStrip(text)
  {
    RStripUnique(RStrip(text), RStrip(text));
  }

  lemma RStripKeepsHead(head: string, tail: string)
    requires head != "" && !IsSpace(head[|head| - 1])
    ensures RStrip(head + tail) == head + RStrip(tail)
  {
    RStripUnique(head + tail, head + RStrip(tail));
  }

  lemma SliceOfSlice(text: string, p: nat, q: nat, i: nat, j: nat)
    requires i <= j && p + j <= q <= |text|
    ensures text[p + i..p + j] == text[p..q][i..j]
  {
    var direct, nested := text[p + i..p + j], text[p..q][i..j];
    forall k | 0 <= k < |direct| ensures direct[k] == nested[k] {
      assert text[p..q][i + k] == text[p + i + k];
    }
  }
}
