/** The record inside the photograph: a JPEG comment behind the end of the image
    (chdk-src/core/bend_tag.c:36-53, 126-172, 215-291, 432-514). */
module Tag {
  import opened Bend
  import opened Options
  import opened ShotRecord
  import opened TagText
  import opened Words

  const WINDOW: nat := 1028            // TEXT_MAX and the comment's own header
  const MARK_LEN: nat := 15
  const BSH: string := "BSH1:"

  // ----- The comment -----

  function HexDigit(v: nat): char
    requires v < 16
  {
    Digit(v)
  }

  function Hex(rec: seq<byte>): string {
    if rec == [] then "" else [HexDigit(rec[0] / 16), HexDigit(rec[0] % 16)] + Hex(rec[1..])
  }

  // The text of the comment; the record is left out when there is no room for it.
  ghost function Text(t: Shot, bits: nat): string
    requires ShotFormed(t) && Describable(t) && bits <= 16
  {
    ProseParts(t, bits);
    var p := Prose(t, bits);
    if |p| + REC_MAX * 2 + 8 < TEXT_MAX then p + BSH + Hex(Record(t)) + "\n" else p
  }

  // The comment segment: its length covers itself.
  function Segment(text: string): string {
    var seg := |text| + 2;
    [0xff as char, 0xfe as char, (seg / 0x100 % 0x100) as char, (seg % 0x100) as char] + text
  }

  // The picture with the comment behind its end.
  function Appended(pic: string, text: string): string {
    if text == "" || |text| + 2 > 0xfffd then pic else pic + Segment(text)
  }

  // ----- Finding it again -----

  // The tail of a file that a comment can be in.
  function Tail(file: string): string { if |file| < WINDOW then file else file[|file| - WINDOW..] }

  predicate At(s: string, i: nat, w: string) { i + |w| <= |s| && s[i..i + |w|] == w }

  // Where w is in s, the first time from i on; |s| when it is not.
  function Find(s: string, w: string, i: nat): (k: nat)
    requires i <= |s| && w != ""
    ensures k <= |s| && (k < |s| ==> At(s, k, w))
    ensures forall j: nat | i <= j < k :: !At(s, j, w)
    decreases |s| - i
  {
    if i == |s| || At(s, i, w) then i else Find(s, w, i + 1)
  }

  lemma {:induction false} FoundAt(s: string, w: string, i: nat, k: nat)
    requires i <= k < |s| && w != "" && At(s, k, w) && forall j: nat | i <= j < k :: !At(s, j, w)
    ensures Find(s, w, i) == k
    decreases k - i
  {
    if i < k { FoundAt(s, w, i + 1, k); }
  }

  // A C string: up to the NUL.
  function ToNul(s: string): (r: string)
    ensures r <= s
  {
    if s == "" || s[0] == '\0' then "" else [s[0]] + ToNul(s[1..])
  }

  function Unhex(c: char): int {
    if '0' <= c <= '9' then c as int - '0' as int
    else if 'a' <= c <= 'f' then c as int - 'a' as int + 10
    else if 'A' <= c <= 'F' then c as int - 'A' as int + 10
    else -1
  }

  // The bytes that pairs of hex digits stand for, at most n of them.
  function Decoded(s: string, n: nat): (rec: seq<byte>)
    ensures |rec| <= n
  {
    if n == 0 || |s| < 2 || Unhex(s[0]) < 0 || Unhex(s[1]) < 0 then []
    else [Unhex(s[0]) * 16 + Unhex(s[1])] + Decoded(s[2..], n - 1)
  }

  // What a file's tag says.
  function ReadTag(file: string, nbits: byte): Option<Shot> {
    var win := Tail(file);
    if |win| < MARK_LEN + 1 then None
    else
      var i := Find(win, MARK, 0);
      if i == |win| then None
      else
        var rest := ToNul(win[i..]);
        var k := Find(rest, BSH, 0);
        if k == |rest| then None
        else Unpacked(Decoded(rest[k + 5..], REC_MAX), nbits)
  }

  // ----- Round trip -----

  lemma UnhexDigit(v: nat)
    requires v < 16
    ensures Unhex(HexDigit(v)) == v && Ascii(HexDigit(v)) && HexDigit(v) == "0123456789abcdef"[v]
  {
  }

  // Either case is read, and nothing else is.
  lemma UnhexIs(c: char)
    ensures var v := Unhex(c);
      if v < 0 then v == -1 && c !in "0123456789abcdefABCDEF"
      else v < 16 && (c == "0123456789abcdef"[v] || c == "0123456789ABCDEF"[v])
  {
  }

  lemma {:induction false} HexRoundTrip(rec: seq<byte>, rest: string)
    ensures Decoded(Hex(rec) + rest, |rec|) == rec
  {
    hide *;
    HexNext(rec);
    if rec == [] {
      NothingDecoded(Hex(rec) + rest);
    } else {
      HexPair(rec[0], Hex(rec[1..]) + rest, |rec|);
      HexRoundTrip(rec[1..], rest);
      assert Hex(rec) + rest == [HexDigit(rec[0] / 16), HexDigit(rec[0] % 16)] + (Hex(rec[1..]) + rest);
    }
  }

  lemma HexNext(rec: seq<byte>)
    ensures rec != [] ==> Hex(rec) == [HexDigit(rec[0] / 16), HexDigit(rec[0] % 16)] + Hex(rec[1..])
  {
    hide HexDigit;
  }

  lemma NothingDecoded(s: string)
    ensures Decoded(s, 0) == []
  {
  }

  lemma HexPair(b: byte, rest: string, n: nat)
    requires n > 0
    ensures Decoded([HexDigit(b / 16), HexDigit(b % 16)] + rest, n) == [b] + Decoded(rest, n - 1)
  {
    UnhexDigit(b / 16);
    UnhexDigit(b % 16);
    var s := [HexDigit(b / 16), HexDigit(b % 16)] + rest;
    assert s[2..] == rest;
    hide HexDigit, Unhex;
  }

  lemma {:induction false} HexIs(rec: seq<byte>)
    ensures |Hex(rec)| == 2 * |rec| && forall i | 0 <= i < |Hex(rec)| :: Ascii(Hex(rec)[i])
  {
    if rec != [] {
      UnhexDigit(rec[0] / 16);
      UnhexDigit(rec[0] % 16);
      HexIs(rec[1..]);
      hide HexDigit;
    }
  }

  lemma {:induction false} NoNul(s: string)
    requires forall i | 0 <= i < |s| :: Ascii(s[i])
    ensures ToNul(s) == s
  {
    if s != "" { NoNul(s[1..]); }
  }

  // The record begins where the prose ends, and nowhere before.
  lemma RecordAt(p: string, h: string)
    requires Calm(p)
    ensures Find(p + BSH + h, BSH, 0) == |p|
  {
    var s := p + BSH + h;
    assert s[|p|..|p| + 5] == BSH;
    forall j: nat | j < |p| ensures !At(s, j, BSH) { NotInProse(p, h, j); }
    FoundAt(s, BSH, 0, |p|);
    hide At, Find, Calm;
  }

  lemma NotInProse(p: string, h: string, j: nat)
    requires Calm(p) && j < |p|
    ensures !At(p + BSH + h, j, BSH)
  {
    var s := p + BSH + h;
    if s[j + 2] != 'H' {
      NotAt(s, j, BSH, 2);
    } else {
      NotAt(s, j, BSH, 3);
    }
  }

  // One character that differs is enough.
  lemma NotAt(s: string, j: nat, w: string, m: nat)
    requires m < |w| && (j + |w| <= |s| ==> s[j + m] != w[m])
    ensures !At(s, j, w)
  {
    assert j + |w| <= |s| ==> s[j..j + |w|][m] == s[j + m];
  }

  // The prose is always short enough for the record to follow it.
  lemma TextIs(t: Shot, bits: nat)
    requires ShotFormed(t) && Describable(t) && bits <= 16
    ensures Calm(Prose(t, bits)) && MARK <= Prose(t, bits)
    ensures Text(t, bits) == Prose(t, bits) + BSH + (Hex(Record(t)) + "\n")
    ensures MARK_LEN <= |Text(t, bits)| < TEXT_MAX && forall i | 0 <= i < |Text(t, bits)| :: Ascii(Text(t, bits)[i])
  {
    ProseParts(t, bits);
    ProseIsFine(t, bits);
    HexIs(Record(t));
    hide Prose, Hex, Record, ShotFormed, Describable;
    var p, h := Prose(t, bits), Hex(Record(t));
    assert p + BSH + h + "\n" == p + BSH + (h + "\n");
    assert forall i | 0 <= i < |p| :: Ascii(p[i]);
  }

  // The picture does not hold the mark where the reader will look for it.
  ghost predicate NoMark(pic: string, from: nat) { forall i: nat | i >= from :: !At(pic, i, MARK) }

  // Nor does the comment's header make one.
  lemma MarkAt(pre: string, text: string)
    requires NoMark(pre, 0) && MARK <= text && |text| < TEXT_MAX
    ensures Find(pre + Segment(text), MARK, 0) == |pre| + 4
    ensures (pre + Segment(text))[|pre| + 4..] == text
  {
    hide At, Find, NoMark, Segment;
    var s, k := pre + Segment(text), |pre| + 4;
    SegmentIs(text);
    assert s[k..] == text;
    IsAt(s, k, MARK, text);
    forall j: nat | j < k ensures !At(s, j, MARK) { NotBefore(pre, text, j); }
    FoundAt(s, MARK, 0, k);
  }

  lemma SegmentIs(text: string)
    requires |text| < TEXT_MAX
    ensures |Segment(text)| == |text| + 4 && Segment(text)[4..] == text
    ensures Segment(text)[0] == 0xff as char && Segment(text)[1] == 0xfe as char && Segment(text)[2] < '@'
  {
  }

  lemma IsAt(s: string, k: nat, w: string, rest: string)
    requires k <= |s| && s[k..] == rest && w <= rest
    ensures At(s, k, w)
  {
    assert s[k..k + |w|] == rest[..|w|];
  }

  lemma NotBefore(pre: string, text: string, j: nat)
    requires NoMark(pre, 0) && MARK <= text && |text| < TEXT_MAX && j < |pre| + 4
    ensures !At(pre + Segment(text), j, MARK)
  {
    var s := pre + Segment(text);
    if j + 15 <= |pre| {
      assert !At(pre, j, MARK);
      assert s[j..j + 15] == pre[j..j + 15];
    } else if j <= |pre| {
      assert s[|pre|] == 0xff as char;
      NotAt(s, j, MARK, |pre| - j);
    } else if j < |pre| + 3 {
      assert s[j] == Segment(text)[j - |pre|];
      NotAt(s, j, MARK, 0);
    } else {
      assert s[j + 1] == text[0] == MARK[0];
      NotAt(s, j, MARK, 1);
    }
  }

  // A state tagged onto a picture whose tail holds no earlier mark is read back as the gated state: as it
  // was exactly when its pieces would pass their gates unchanged.
  lemma TagRoundTrip(pic: string, t: Shot, bits: nat, nbits: byte)
    requires ShotFormed(t) && Describable(t) && bits <= 16 && 2 <= nbits <= MAX_BITS
    requires NoMark(pic, if |pic| < WINDOW then 0 else |pic| - WINDOW)
    ensures ReadTag(Appended(pic, Text(t, bits)), nbits) == Some(Gated(t, nbits))
    ensures Gated(t, nbits) == t <==> ShotUsable(t)
  {
    hide Text, Prose, Hex, Record, Tail, Appended, Segment, Find, ToNul, Decoded, Unpacked, ReadTag, ShotFormed, Describable,
         NoMark, Calm, At;
    ProseParts(t, bits);
    TextIs(t, bits);
    var text, p, h := Text(t, bits), Prose(t, bits), Hex(Record(t)) + "\n";
    var pre := TailOf(pic, text);
    MarkAt(pre, text);
    NoNul(text);
    RecordAt(p, h);
    assert text[|p| + 5..] == h;
    HexRoundTrip(Record(t), "\n");
    ShotRoundTrip(t, nbits);
    ReadTagIs(Appended(pic, text), nbits, |pre| + 4, text, |p|);
  }

  // So a state that has passed the gates before comes back with every line, effect and region it had.
  lemma TagKeepsLines(pic: string, t: Shot, bits: nat, nbits: byte)
    requires ShotFormed(t) && bits <= 16 && 2 <= nbits <= MAX_BITS
    requires NoMark(pic, if |pic| < WINDOW then 0 else |pic| - WINDOW)
    ensures var g := Gated(t, nbits);
      && ShotFormed(g) && Describable(g) && ShotFormed(Gated(g, nbits))
      && ReadTag(Appended(pic, Text(g, bits)), nbits) == Some(Gated(g, nbits)) && SameShot(g, Gated(g, nbits))
  {
    hide *;
    GatedDescribable(t, nbits);
    GatedRoundTrip(t, nbits);
    TagRoundTrip(pic, Gated(t, nbits), bits, nbits);
  }

  // The window is wide enough for any comment: up to 1024 characters and its header.
  lemma WholeInWindow(pre: string, text: string)
    requires |text| <= 1024
    ensures var t, g := Tail(pre + Segment(text)), Segment(text);
      |g| == |text| + 4 && |t| >= |g| && t[|t| - |g|..] == g
  {
  }

  // ----- Tagged once -----

  // Whether a picture is there to be tagged: 1 when it is complete, -1 when it has been, 0 when it is
  // not known to be either yet.
  function Ready(file: string): int {
    if |file| < 2 || file[0] != 0xff as char || file[1] != 0xd8 as char then 0
    else if file[|file| - 2] == 0xff as char && file[|file| - 1] == 0xd9 as char then 1
    else if |Tail(file)| < MARK_LEN + 1 then 0
    else if Find(Tail(file), MARK, 0) < |Tail(file)| then -1
    else 0
  }

  // A picture that was complete is complete no longer once it has been tagged, and is not tagged again.
  lemma TaggedOnce(pic: string, t: Shot, bits: nat)
    requires ShotFormed(t) && Describable(t) && bits <= 16 && Ready(pic) == 1
    ensures Ready(Appended(pic, Text(t, bits))) == -1
  {
    hide Text, Prose, Hex, Record, Tail, Find, Segment, ShotFormed, Describable, Calm, At;
    ProseParts(t, bits);
    TextIs(t, bits);
    var text := Text(t, bits);
    var file := Appended(pic, text);
    SegmentIs(text);
    assert text[|text| - 1] == '\n' by { hide BSH; }
    assert file[|file| - 1] == Segment(text)[|text| + 3] == Segment(text)[4..][|text| - 1] == '\n';
    TailIs(pic, text);
    var pre := Before(pic, text);
    assert (pre + Segment(text))[|pre| + 4..] == text;
    IsAt(pre + Segment(text), |pre| + 4, MARK, text);
    FindFinds(pre + Segment(text), MARK, 0, |pre| + 4);
  }

  lemma {:induction false} FindFinds(s: string, w: string, i: nat, k: nat)
    requires i <= k < |s| && w != "" && At(s, k, w)
    ensures Find(s, w, i) <= k
  {
    var f := Find(s, w, i);
    hide At, Find;
  }

  // What the tail of the tagged file has of the picture.
  function Before(pic: string, text: string): string {
    var n := |pic| + |text| + 4;
    if n < WINDOW || n - WINDOW > |pic| then pic else pic[n - WINDOW..]
  }

  lemma TailIs(pic: string, text: string)
    requires MARK_LEN <= |text| < TEXT_MAX
    ensures Tail(Appended(pic, text)) == Before(pic, text) + Segment(text) && |Segment(text)| == |text| + 4
  {
    hide Segment;
    SegmentIs(text);
    var n := |pic| + |text| + 4;
    DropFront(pic, Segment(text), if n < WINDOW then 0 else n - WINDOW);
    assert Appended(pic, text) == pic + Segment(text) && |pic + Segment(text)| == n;
  }

  lemma DropFront(a: string, b: string, s: nat)
    requires s <= |a|
    ensures (a + b)[s..] == a[s..] + b && a[0..] == a
  {
  }

  // The tail of the tagged file: all of the segment, and something of the picture before it.
  lemma TailOf(pic: string, text: string) returns (pre: string)
    requires MARK_LEN <= |text| < TEXT_MAX && MARK <= text
    requires NoMark(pic, if |pic| < WINDOW then 0 else |pic| - WINDOW)
    ensures Tail(Appended(pic, text)) == pre + Segment(text) && NoMark(pre, 0) && |Segment(text)| == |text| + 4
  {
    TailIs(pic, text);
    pre := Before(pic, text);
    var s := |pic| - |pre|;
    var from := if |pic| < WINDOW then 0 else |pic| - WINDOW;
    assert pre == pic[s..] && s >= from;
    hide Tail, Appended, Segment, Before;
    forall i: nat ensures !At(pre, i, MARK) { NoMarkAt(pic, from, s, i); }
  }

  lemma NoMarkAt(pic: string, from: nat, s: nat, i: nat)
    requires NoMark(pic, from) && from <= s <= |pic|
    ensures !At(pic[s..], i, MARK)
  {
    var j := s + i;
    assert !At(pic, j, MARK);
    if i + 15 <= |pic[s..]| { assert pic[s..][i..i + 15] == pic[j..j + 15]; }
  }

  // The reader's steps, when each finds what it looks for.
  lemma ReadTagIs(file: string, nbits: byte, i: nat, rest: string, k: nat)
    requires var win := Tail(file); |win| > MARK_LEN && Find(win, MARK, 0) == i < |win| && ToNul(win[i..]) == rest
    requires Find(rest, BSH, 0) == k < |rest| && k + 5 <= |rest|
    ensures ReadTag(file, nbits) == Unpacked(Decoded(rest[k + 5..], REC_MAX), nbits)
  {
    hide Find, Tail, ToNul, Unpacked, Decoded;
  }
}
