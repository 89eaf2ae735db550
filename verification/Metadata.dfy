/**
 The metadata header of a message body: printer and parser.

 JSON is a parameter: `encode` prints an object, `decode` reads any text.  Proved is when parsing a
 printed header gives the metadata and the body back, and what happens to a second header.
 */
module Metadata {
  import opened Prelude
  import opened Text

  const META_PREFIX := "<!-- agent-cockpit-meta:"
  const META_SUFFIX := " -->"

  datatype Decoded<M> = Malformed | NonObject | Object(meta: M)

  datatype Codec<!M> = Codec(encode: M -> string, decode: string -> Decoded<M>)

  /** What JSON objects satisfy: they read back, and no proper prefix of one is valid. */
  ghost predicate Faithful<M(!new)>(codec: Codec<M>) {
    && (forall m :: codec.decode(codec.encode(m)) == Object(m))
    && (forall m, k | 0 <= k < |codec.encode(m)| :: codec.decode(codec.encode(m)[..k]) == Malformed)
  }

  // ---------------------------------------------------------------- printer and parser

  function Parse<M>(codec: Codec<M>, text: string): (string, Option<M>) {
    if !(META_PREFIX <= text) then (text, None)
    else
      match Find(text, META_SUFFIX, |META_PREFIX|)
      case None => (text, None)
      case Some(end) =>
        var decoded := codec.decode(text[|META_PREFIX|..end]);
        if decoded.Malformed? then (text, None)
        else
          var rest := text[end + |META_SUFFIX|..];
          var clean := if rest != "" && rest[0] == '\n' then rest[1..] else rest;
          (clean, if decoded.Object? then Some(decoded.meta) else None)
  }

  function Header<M>(codec: Codec<M>, m: M): string {
    META_PREFIX + codec.encode(m) + META_SUFFIX
  }

  function Add<M>(codec: Codec<M>, body: string, m: M): string {
    RStrip(Header(codec, m) + "\n" + Parse(codec, body).0)
  }

  // ---------------------------------------------------------------- shape of a printed header

  /** What follows the header: nothing, or a newline and the stripped text. */
  function Below(text: string): string {
    if text == "" then "" else "\n" + text
  }

  lemma BelowStripped(clean: string)
    ensures RStrip("\n" + clean) == Below(RStrip(clean))
  {
    var r := RStrip(clean);
    assert Below(r) <= "\n" + clean;
    assert forall i | |r| <= i < |clean| :: ("\n" + clean)[i + 1] == clean[i];
    RStripUnique("\n" + clean, Below(r));
  }

  lemma AddShape<M>(codec: Codec<M>, body: string, m: M)
    ensures Add(codec, body, m) == Header(codec, m) + Below(RStrip(Parse(codec, body).0))
  {
    var head, clean := Header(codec, m), Parse(codec, body).0;
    HeaderEnd(codec, m);
    assert head + "\n" + clean == head + ("\n" + clean);
    RStripKeepsHead(head, "\n" + clean);
    BelowStripped(clean);
  }

  lemma HeaderEnd<M>(codec: Codec<M>, m: M)
    ensures Header(codec, m) != "" && !IsSpace(Header(codec, m)[|Header(codec, m)| - 1])
  {
  }

  /** The closing marker cannot overlap itself. */
  lemma NoOverlap(text: string, encoding: string, p: nat, i: nat)
    requires p <= i < p + |encoding| && p + |encoding| + 4 <= |text| && !OccursAt(encoding, META_SUFFIX, i - p)
    requires text[p..p + |encoding|] == encoding && text[p + |encoding|] == ' '
    ensures !OccursAt(text, META_SUFFIX, i)
  {
    var n := p + |encoding|;
    if i + 4 <= n {
      SliceOfSlice(text, p, n, i - p, i - p + 4);
    } else {
      assert text[i..i + 4][n - i] == text[n] != META_SUFFIX[n - i];
    }
  }

  /** So it is first found inside the encoding or right after it. */
  lemma FirstMarker(text: string, encoding: string, p: nat)
    requires p + |encoding| + 4 <= |text| && text[p..p + |encoding|] == encoding
    requires OccursAt(text, META_SUFFIX, p + |encoding|)
    ensures var end := Find(text, META_SUFFIX, p);
            && end.Some? && end.value <= p + |encoding|
            && (Contains(encoding, META_SUFFIX) <==> end.value < p + |encoding|)
  {
    var n := |encoding|;
    if i :| 0 <= i <= n && OccursAt(encoding, META_SUFFIX, i) {
      SliceOfSlice(text, p, p + n, i, i + 4);
      assert OccursAt(text, META_SUFFIX, p + i);
    } else {
      assert text[p + n..p + n + |META_SUFFIX|][0] == META_SUFFIX[0];
      forall i | p <= i < p + n ensures !OccursAt(text, META_SUFFIX, i) {
        assert !OccursAt(encoding, META_SUFFIX, i - p);
        NoOverlap(text, encoding, p, i);
      }
    }
  }

  /** Any text between the markers that holds no closing marker: it is cut off, with one line end, if it is
      valid JSON, and gives metadata exactly if it is an object; text that is not valid JSON stays. */
  lemma ParseExactly<M>(codec: Codec<M>, inner: string, rest: string)
    requires !Contains(inner, " -->")
    ensures var text := "<!-- agent-cockpit-meta:" + inner + " -->" + rest;
            Parse(codec, text) ==
            match codec.decode(inner)
            case Malformed => (text, None)
            case NonObject => (if rest != "" && rest[0] == '\n' then rest[1..] else rest, None)
            case Object(meta) => (if rest != "" && rest[0] == '\n' then rest[1..] else rest, Some(meta))
  {
    var text, p := META_PREFIX + inner + META_SUFFIX + rest, |META_PREFIX|;
    var n := p + |inner|;
    assert text[p..n] == inner && text[n..n + 4] == META_SUFFIX && text[n + 4..] == rest && text[..p] == META_PREFIX;
    FirstMarker(text, inner, p);
  }

  /** A text that does not open with the marker, or does not close it, has no header. */
  lemma HeaderlessExactly<M>(codec: Codec<M>, text: string)
    requires !(META_PREFIX <= text) || forall i | |META_PREFIX| <= i <= |text| :: !OccursAt(text, META_SUFFIX, i)
    ensures Parse(codec, text) == (text, None)
  {
  }

  lemma ParsePrinted<M(!new)>(codec: Codec<M>, m: M, below: string)
    requires Faithful(codec) && (below == "" || below[0] == '\n')
    ensures var text := Header(codec, m) + below;
            Parse(codec, text) == if Contains(codec.encode(m), META_SUFFIX) then (text, None)
                                  else (if below == "" then "" else below[1..], Some(m))
  {
    var text, encoding, p := Header(codec, m) + below, codec.encode(m), |META_PREFIX|;
    var n := p + |encoding|;
    assert text[p..n] == encoding && text[n..n + 4] == META_SUFFIX && text[n + 4..] == below
           && text[..p] == META_PREFIX;
    FirstMarker(text, encoding, p);
    var end := Find(text, META_SUFFIX, p).value;
    assert text[p..end] == encoding[..end - p];
    assert encoding[..|encoding|] == encoding;
  }

  // ---------------------------------------------------------------- promises

  /** Parsing what was printed: the metadata and the body's clean text without trailing whitespace,
      exactly when the encoding is free of the closing marker; otherwise the header is not recognised
      at all and stays in the text. */
  lemma ParseAdded<M(!new)>(codec: Codec<M>, body: string, m: M)
    requires Faithful(codec)
    ensures Parse(codec, Add(codec, body, m)) ==
            if Contains(codec.encode(m), META_SUFFIX) then (Add(codec, body, m), None)
            else (RStrip(Parse(codec, body).0), Some(m))
  {
    AddShape(codec, body, m);
    ParsePrinted(codec, m, Below(RStrip(Parse(codec, body).0)));
  }

  /** A header replaces the header before it, exactly when that one can be parsed. */
  lemma AddReplaces<M(!new)>(codec: Codec<M>, body: string, m1: M, m2: M)
    requires Faithful(codec)
    ensures Add(codec, Add(codec, body, m1), m2) == Add(codec, body, m2)
       <==> !Contains(codec.encode(m1), META_SUFFIX)
  {
    var clean, first := RStrip(Parse(codec, body).0), Add(codec, body, m1);
    RStripTwice(Parse(codec, body).0);
    RStripTwice(Header(codec, m1) + "\n" + Parse(codec, body).0);
    AddShape(codec, body, m1);
    AddShape(codec, body, m2);
    AddShape(codec, first, m2);
    ParseAdded(codec, body, m1);
    AppendedSame(Header(codec, m2), Below(clean), Below(first));
  }

  lemma AppendedSame(head: string, a: string, b: string)
    ensures head + a == head + b <==> a == b
  {
    assert (head + a)[|head|..] == a && (head + b)[|head|..] == b;
  }

  /** Adding metadata to a body that starts with no header only strips trailing whitespace of it. */
  lemma PlainBodySurvives<M(!new)>(codec: Codec<M>, body: string, m: M)
    requires Faithful(codec) && !(META_PREFIX <= body) && !Contains(codec.encode(m), META_SUFFIX)
    ensures Parse(codec, Add(codec, body, m)) == (RStrip(body), Some(m))
  {
    ParseAdded(codec, body, m);
  }
}
