/** A comment that was only written in part, because the card filled up or the camera was switched off
    (chdk-src/core/bend_tag.c:215-291, 442-514): what the reader makes of every such file, and whether
    the picture is tagged again. */
module TornTag {
  import opened Bend
  import opened Options
  import opened ShotRecord
  import opened Tag
  import opened TagText
  import opened Words

  // The picture with the first m bytes of the comment segment behind it.
  function Torn(pic: string, text: string, m: nat): string
    requires m <= |text| + 4
  {
    pic + Segment(text)[..m]
  }

  // Written in full, it is the tagged picture.
  lemma AllWritten(pic: string, text: string)
    requires MARK_LEN <= |text| < TEXT_MAX
    ensures Torn(pic, text, |text| + 4) == Appended(pic, text)
  {
    SegmentIs(text);
    assert Segment(text)[..|text| + 4] == Segment(text);
    hide Segment;
  }

  lemma TornTail(pic: string, text: string, m: nat) returns (pre: string)
    requires MARK <= text && |text| < TEXT_MAX && m <= |text| + 4
    requires NoMark(pic, if |pic| < WINDOW then 0 else |pic| - WINDOW)
    ensures m <= |Segment(text)| == |text| + 4 && Tail(Torn(pic, text, m)) == pre + Segment(text)[..m] && NoMark(pre, 0)
  {
    SegmentIs(text);
    hide Segment;
    var n := |pic| + m;
    var s := if n < WINDOW then 0 else n - WINDOW;
    DropFront(pic, Segment(text)[..m], s);
    pre := pic[s..];
    hide Tail;
    forall i: nat ensures !At(pre, i, MARK) {
      NoMarkAt(pic, if |pic| < WINDOW then 0 else |pic| - WINDOW, s, i);
    }
  }

  lemma AtInWhole(s: string, whole: string, j: nat, w: string)
    requires s <= whole && At(s, j, w)
    ensures At(whole, j, w)
  {
    assert s[j..j + |w|] == whole[j..j + |w|];
  }

  // The mark is there once its last byte is.
  lemma TornMark(pre: string, text: string, m: nat)
    requires NoMark(pre, 0) && MARK <= text && |text| < TEXT_MAX && m <= |text| + 4
    ensures m <= |Segment(text)|
    ensures var s := pre + Segment(text)[..m];
      Find(s, MARK, 0) == if m < 4 + MARK_LEN then |s| else |pre| + 4
    ensures m >= 4 ==> (pre + Segment(text)[..m])[|pre| + 4..] == text[..m - 4]
  {
    hide At, Find, NoMark, Segment;
    SegmentIs(text);
    var s, whole, k := pre + Segment(text)[..m], pre + Segment(text), |pre| + 4;
    assert s == whole[..|pre| + m];
    forall j: nat | j < k ensures !At(s, j, MARK) {
      NotBefore(pre, text, j);
      if At(s, j, MARK) { AtInWhole(s, whole, j, MARK); }
    }
    if m >= 4 {
      assert s[k..] == text[..m - 4];
      if m >= 4 + MARK_LEN {
        IsAt(s, k, MARK, text[..m - 4]);
        FoundAt(s, MARK, 0, k);
      }
    }
    if m < 4 + MARK_LEN { TooShort(s, Find(s, MARK, 0), MARK); }
  }

  lemma TooShort(s: string, k: nat, w: string)
    ensures At(s, k, w) ==> k + |w| <= |s|
  {
  }

  // The record begins where the prose ends, once its own mark is there.
  lemma TornRecord(p: string, h: string, c: nat)
    requires Calm(p) && c <= |p| + 5 + |h|
    ensures var r := (p + BSH + h)[..c]; Find(r, BSH, 0) == if c < |p| + 5 then |r| else |p|
  {
    hide At, Find, Calm;
    var whole := p + BSH + h;
    var r := whole[..c];
    forall j: nat | j < |p| ensures !At(r, j, BSH) {
      NotInProse(p, h, j);
      if At(r, j, BSH) { AtInWhole(r, whole, j, BSH); }
    }
    if c < |p| + 5 {
      TooShort(r, Find(r, BSH, 0), BSH);
    } else {
      assert r[|p|..] == (BSH + h)[..c - |p|];
      IsAt(r, |p|, BSH, r[|p|..]);
      FoundAt(r, BSH, 0, |p|);
    }
  }

  // Hex digits cut off anywhere give the bytes whose two digits are there.
  lemma {:induction false} HexCut(rec: seq<byte>, d: nat)
    requires d < 2 * |rec|
    ensures d <= |Hex(rec)| && Decoded(Hex(rec)[..d], |rec|) == rec[..d / 2]
  {
    hide Hex, Decoded, HexDigit;
    HexIs(rec);
    HexNext(rec);
    if d < 2 {
      OneDigit(Hex(rec)[..d], |rec|);
    } else {
      HexCut(rec[1..], d - 2);
      HexPair(rec[0], Hex(rec[1..])[..d - 2], |rec|);
      assert Hex(rec)[..d] == [HexDigit(rec[0] / 16), HexDigit(rec[0] % 16)] + Hex(rec[1..])[..d - 2];
      assert rec[..d / 2] == [rec[0]] + rec[1..][..(d - 2) / 2];
    }
  }

  lemma OneDigit(s: string, n: nat)
    requires |s| < 2
    ensures Decoded(s, n) == []
  {
  }

  // Nothing less than the whole record is taken for one.
  lemma ShortRecord(t: Shot, n: nat, nbits: byte)
    requires ShotFormed(t) && n < REC_MAX
    ensures Unpacked(Record(t)[..n], nbits) == None
  {
    Pieces(t);
    hide Record, ShotFormed, Sanitized, CleanChain, CleanSegs, Upgraded, BendFrom, ChainFrom, SegsFrom;
    if n >= 12 { assert Get16(Record(t)[..n][4..]) == Get16(Record(t)[4..]) == VERSION; }
  }

  // What is read from a file whose tail ends in the first m bytes of a comment.
  lemma TornRead(file: string, pre: string, text: string, p: string, h: string, m: nat, nbits: byte)
    requires Calm(p) && MARK <= p && text == p + BSH + h && |text| < TEXT_MAX && m <= |text| + 4
    requires forall i | 0 <= i < |text| :: Ascii(text[i])
    requires NoMark(pre, 0) && m <= |Segment(text)| && Tail(file) == pre + Segment(text)[..m]
    ensures ReadTag(file, nbits) ==
      if m < |p| + 9 then None else Unpacked(Decoded(text[..m - 4][|p| + 5..], REC_MAX), nbits)
  {
    hide Tail, Segment, Find, Decoded, Unpacked, NoMark, Calm, At, ToNul, Ascii;
    TornMark(pre, text, m);
    if m >= 4 + MARK_LEN {
      var c := m - 4;
      NoNul(text[..c]);
      TornRecord(p, h, c);
      if c >= |p| + 5 { ReadTagIs(file, nbits, |pre| + 4, text[..c], |p|); }
    }
  }

  // However much of the comment reached the card, the picture reads as tagged with the whole state or
  // as not tagged: as tagged exactly when at most the newline behind the record is missing.
  lemma TornTagReads(pic: string, t: Shot, bits: nat, nbits: byte, m: nat)
    requires ShotFormed(t) && Describable(t) && bits <= 16 && 2 <= nbits <= MAX_BITS && m <= |Text(t, bits)| + 4
    requires NoMark(pic, if |pic| < WINDOW then 0 else |pic| - WINDOW)
    ensures ReadTag(Torn(pic, Text(t, bits), m), nbits) == if m >= |Text(t, bits)| + 3 then Some(Gated(t, nbits)) else None
    ensures m == |Text(t, bits)| + 4 ==> Torn(pic, Text(t, bits), m) == Appended(pic, Text(t, bits))
  {
    hide Appended, Text, Prose, Hex, Record, Tail, Torn, Segment, Decoded, Unpacked, ReadTag, ShotFormed, Describable, NoMark, Calm, At;
    TextIs(t, bits);
    TextLength(t, bits);
    var text, p, h := Text(t, bits), Prose(t, bits), Hex(Record(t)) + "\n";
    if m == |text| + 4 { AllWritten(pic, text); }
    var pre := TornTail(pic, text, m);
    TornRead(Torn(pic, text, m), pre, text, p, h, m, nbits);
    if m >= |p| + 9 { CutRecord(t, p, h, m - 4, nbits); }
  }

  lemma TextLength(t: Shot, bits: nat)
    requires ShotFormed(t) && Describable(t) && bits <= 16
    ensures |t.bend.route| >= bits && |t.chain.items| == CHAIN_MAX && Describable(t)
    ensures |Text(t, bits)| == |Prose(t, bits)| + 5 + 2 * REC_MAX + 1 < TEXT_MAX
  {
    ProseParts(t, bits);
    TextIs(t, bits);
    HexIs(Record(t));
    hide Text, Prose, Hex, Record, ShotFormed, Describable;
  }

  lemma CutRecord(t: Shot, p: string, h: string, c: nat, nbits: byte)
    requires ShotFormed(t) && 2 <= nbits <= MAX_BITS && h == Hex(Record(t)) + "\n"
    requires |p| + 5 <= c <= |p| + 5 + |h|
    ensures Unpacked(Decoded((p + BSH + h)[..c][|p| + 5..], REC_MAX), nbits)
         == if c >= |p| + 5 + |h| - 1 then Some(Gated(t, nbits)) else None
  {
    hide Hex, Record, Decoded, Unpacked, ShotFormed, Describable;
    HexIs(Record(t));
    var d := c - |p| - 5;
    assert (p + BSH + h)[..c][|p| + 5..] == h[..d];
    if d < 2 * REC_MAX {
      HexCut(Record(t), d);
      assert h[..d] == Hex(Record(t))[..d];
      ShortRecord(t, d / 2, nbits);
    } else {
      HexRoundTrip(Record(t), "\n"[..d - 2 * REC_MAX]);
      assert h[..d] == Hex(Record(t)) + "\n"[..d - 2 * REC_MAX];
      ShotRoundTrip(t, nbits);
    }
  }

  // A picture with any part of a comment behind it is not tagged again: it no longer ends as a complete
  // one does, and from the last byte of the mark on it counts as tagged.
  lemma TornTagStays(pic: string, t: Shot, bits: nat, m: nat)
    requires ShotFormed(t) && Describable(t) && bits <= 16 && m <= |Text(t, bits)| + 4 && Ready(pic) == 1
    requires NoMark(pic, if |pic| < WINDOW then 0 else |pic| - WINDOW)
    ensures Ready(Torn(pic, Text(t, bits), m)) == if m == 0 then 1 else if m < 4 + MARK_LEN then 0 else -1
  {
    hide Text, Prose, Hex, Record, Tail, Find, Segment, ShotFormed, Describable, Calm, At, NoMark;
    ProseParts(t, bits);
    TextIs(t, bits);
    var text := Text(t, bits);
    var pre := TornTail(pic, text, m);
    TornMark(pre, text, m);
    SegmentIs(text);
    var file := Torn(pic, text, m);
    if m == 0 {
      assert file == pic;
    } else {
      assert file[|file| - 1] == Segment(text)[m - 1];
      if m > 4 { assert Segment(text)[m - 1] == Segment(text)[4..][m - 5]; }
    }
  }

  // An empty picture of four bytes, tagged up to the mark's last byte: it has no tag, and counts as tagged.
  lemma TornExample(t: Shot, bits: nat, nbits: byte)
    requires ShotFormed(t) && Describable(t) && bits <= 16 && 2 <= nbits <= MAX_BITS
    ensures var pic := [0xff as char, 0xd8 as char, 0xff as char, 0xd9 as char];
      && |Text(t, bits)| >= 15 && Ready(pic) == 1
      && ReadTag(Torn(pic, Text(t, bits), 19), nbits) == None && Ready(Torn(pic, Text(t, bits), 19)) == -1
  {
    hide Text, Torn, ReadTag, Describable, ShotFormed, Segment, Tail, Find;
    var pic := [0xff as char, 0xd8 as char, 0xff as char, 0xd9 as char];
    assert NoMark(pic, 0);
    TextLength(t, bits);
    TornTagReads(pic, t, bits, nbits, 19);
    TornTagStays(pic, t, bits, 19);
  }
}
