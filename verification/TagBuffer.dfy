/** Building the comment in its static buffer, and reading one back
    (chdk-src/core/bend_tag.c:36-172, 432-514). */
module TagBuffer {
  import opened Bend
  import opened Options
  import opened ShotRecord
  import opened TagText
  import opened Tag
  import opened Words

  // What fits in the buffer, with room for the NUL.
  function Cut(s: string): (r: string)
    ensures |r| <= TEXT_MAX - 1
  {
    if |s| <= TEXT_MAX - 1 then s else s[..TEXT_MAX - 1]
  }

  lemma CutNext(s: string, c: char)
    ensures |Cut(s)| < TEXT_MAX - 1 ==> Cut(s + [c]) == Cut(s) + [c]
  {
  }

  lemma CutFull(s: string, t: string)
    ensures |Cut(s)| == TEXT_MAX - 1 ==> Cut(s + t) == Cut(s)
  {
    assert |s| >= TEXT_MAX - 1 ==> (s + t)[..TEXT_MAX - 1] == s[..TEXT_MAX - 1];
  }

  // The buffer holds what there has been room for.
  ghost predicate Holds(text: array<char>, at: nat, s: string)
    reads text
  {
    text.Length == TEXT_MAX && at <= TEXT_MAX - 1 && text[..at] == Cut(s)
  }

  method PutChar(text: array<char>, at: nat, c: char, ghost pre: string) returns (at': nat)
    requires Holds(text, at, pre) && at < TEXT_MAX - 1
    modifies text
    ensures at' == at + 1 && Holds(text, at', pre + [c])
  {
    CutNext(pre, c);
    hide Cut;
    assert |Cut(pre)| == at;
    text[at] := c;
    at' := at + 1;
    assert text[..at'] == text[..at] + [c];
  }

  method PutStr(text: array<char>, at: nat, s: string, ghost pre: string) returns (at': nat)
    requires Holds(text, at, pre)
    modifies text
    ensures Holds(text, at', pre + s)
  {
    at' := at;
    var k := 0;
    assert pre + s[..0] == pre;
    hide Holds;
    while k < |s| && at' < TEXT_MAX - 1
      invariant k <= |s| && Holds(text, at', pre + s[..k])
    {
      at' := PutChar(text, at', s[k], pre + s[..k]);
      assert pre + s[..k] + [s[k]] == pre + s[..k + 1];
      k := k + 1;
    }
    StaysFull(text, at', pre + s[..k], s[k..]);
    assert pre + s[..k] + s[k..] == pre + s;
  }

  lemma StaysFull(text: array<char>, at: nat, s: string, t: string)
    requires Holds(text, at, s) && (at == TEXT_MAX - 1 || t == "")
    ensures Holds(text, at, s + t)
  {
    CutFull(s, t);
    assert s + "" == s;
  }

  // The digits of v, written backwards into tmp.
  ghost function Backwards(tmp: seq<char>): string { seq(|tmp|, i requires 0 <= i < |tmp| => tmp[|tmp| - 1 - i]) }

  lemma BackwardsNext(tmp: seq<char>, c: char)
    ensures Backwards(tmp + [c]) == [c] + Backwards(tmp) && Backwards([]) == ""
  {
  }

  lemma DigitsNext(v: nat)
    ensures Digits(v) == (if v / 10 == 0 then "" else Digits(v / 10)) + [Digit(v % 10)]
  {
  }

  method Reversed(v: nat) returns (tmp: array<char>, n: nat)
    requires v < 1_000_000_000_000
    ensures fresh(tmp) && 0 < n <= tmp.Length == 12 && Backwards(tmp[..n]) == Digits(v)
  {
    hide *;
    tmp := new char[12];
    n := 0;
    var w: nat := v;
    BackwardsNext([], '0');
    TensAre();
    assert tmp[..0] == [];
    while n == 0 || (w != 0 && n < 12)
      invariant n <= 12 && w < Tens(12 - n)
      invariant (if w != 0 || n == 0 then Digits(w) else "") + Backwards(tmp[..n]) == Digits(v)
      decreases 12 - n
    {
      n, w := NextDigit(tmp, n, w, Digits(v));
    }
  }

  lemma TensAre()
    ensures Tens(0) == 1 && Tens(12) == 1_000_000_000_000
  {
    assert Tens(4) == 10000 && Tens(8) == 100_000_000;
  }

  method NextDigit(tmp: array<char>, n: nat, w: nat, ghost all: string) returns (n': nat, w': nat)
    requires n < tmp.Length == 12 && w < Tens(12 - n) && (n == 0 || w != 0)
    requires Digits(w) + Backwards(tmp[..n]) == all
    modifies tmp
    ensures n' == n + 1 && w' < Tens(12 - n')
    ensures (if w' != 0 then Digits(w') else "") + Backwards(tmp[..n']) == all
  {
    DigitsNext(w);
    BackwardsNext(tmp[..n], Digit(w % 10));
    TensNext(12 - n);
    hide *;
    tmp[n] := Digit(w % 10);
    n', w' := n + 1, w / 10;
    assert tmp[..n'] == tmp[..n] + [Digit(w % 10)];
  }

  lemma TensNext(n: nat)
    requires n > 0
    ensures Tens(n) == 10 * Tens(n - 1)
  {
  }

  // Writes the digits in tmp out, the last one first.
  method PutBackwards(text: array<char>, at: nat, tmp: array<char>, len: nat, ghost pre: string) returns (at': nat)
    requires Holds(text, at, pre) && len <= tmp.Length && text != tmp
    modifies text
    ensures Holds(text, at', pre + Backwards(tmp[..len]))
  {
    hide Holds, Backwards;
    var n: nat := len;
    at' := at;
    ghost var done, all := "", Backwards(tmp[..len]);
    assert pre + "" == pre;
    while n > 0 && HasRoom(at')
      invariant n <= len && Holds(text, at', pre + done) && done + Backwards(tmp[..n]) == all
    {
      n := n - 1;
      BackwardsNext(tmp[..n], tmp[n]);
      assert tmp[..n + 1] == tmp[..n] + [tmp[n]];
      RoomIs(text, at', pre + done);
      at' := PutChar(text, at', tmp[n], pre + done);
      assert pre + done + [tmp[n]] == pre + (done + [tmp[n]]);
      assert done + ([tmp[n]] + Backwards(tmp[..n])) == done + [tmp[n]] + Backwards(tmp[..n]);
      done := done + [tmp[n]];
    }
    BackwardsNext([], '0');
    assert n == 0 ==> tmp[..n] == [];
    RoomIs(text, at', pre + done);
    StaysFull(text, at', pre + done, Backwards(tmp[..n]));
    assert pre + done + Backwards(tmp[..n]) == pre + (done + Backwards(tmp[..n]));
  }

  predicate HasRoom(at: nat) { at < TEXT_MAX - 1 }

  lemma RoomIs(text: array<char>, at: nat, s: string)
    requires Holds(text, at, s)
    ensures at <= TEXT_MAX - 1
  {
  }

  method PutNum(text: array<char>, at: nat, v: int, ghost pre: string) returns (at': nat)
    requires Holds(text, at, pre) && -1_000_000_000_000 < v < 1_000_000_000_000
    modifies text
    ensures Holds(text, at', pre + Number(v))
  {
    hide Holds, Digits, Backwards;
    at' := at;
    ghost var p := pre;
    if v < 0 {
      at' := PutStr(text, at', "-", p);
      p := p + "-";
    }
    var tmp, n := Reversed(if v < 0 then -v else v);
    at' := PutBackwards(text, at', tmp, n, p);
    assert pre + Number(v) == p + Backwards(tmp[..n]);
  }

  // ----- The prose -----

  // The pins, the top one first.
  method DescribePins(text: array<char>, at: nat, b: Recipe, bits: nat, ghost pre: string) returns (at': nat)
    requires Holds(text, at, pre) && |b.route| >= bits && bits <= 16
    modifies text
    ensures Holds(text, at', pre + Pins(b.route, bits))
  {
    hide Holds, Number, SourceName, Pins;
    at' := at;
    ghost var done := "";
    assert pre + "" == pre;
    var i: nat := bits;
    PinsNext(b.route, 0);
    while i > 0
      invariant i <= bits && Holds(text, at', pre + done) && done + Pins(b.route, i) == Pins(b.route, bits)
    {
      i := i - 1;
      PinsNext(b.route, i + 1);
      at' := DescribePin(text, at', i, b.route[i], pre + done);
      ghost var pin := " " + Number(i) + ":" + SourceName(b.route[i]);
      PinJoined(pre, done, pin, Pins(b.route, i));
      done := done + pin;
    }
    assert done == Pins(b.route, bits);
  }

  lemma PinJoined(pre: string, done: string, pin: string, rest: string)
    ensures done + (pin + rest) == done + pin + rest && pre + done + pin == pre + (done + pin)
  {
  }

  method DescribeBend(text: array<char>, at: nat, b: Recipe, bits: nat, ghost pre: string) returns (at': nat)
    requires Holds(text, at, pre) && |b.route| >= bits && bits <= 16 && b.trashType < TRASH_COUNT
    modifies text
    ensures Holds(text, at', pre + BendProse(b, bits))
  {
    hide Holds, Number, TrashName, Pins, BendProse;
    at' := PutStr(text, at, "bend", pre);
    at' := DescribePins(text, at', b, bits, pre + "bend");
    ghost var sofar := pre + "bend" + Pins(b.route, bits);
    at' := PutStr(text, at', "\ndepth ", sofar);
    at' := PutNum(text, at', b.depth, sofar + "\ndepth ");
    at' := PutStr(text, at', "  trash ", sofar + "\ndepth " + Number(b.depth));
    at' := PutStr(text, at', TrashName(b.trashType), sofar + "\ndepth " + Number(b.depth) + "  trash ");
    at' := PutStr(text, at', "\n", sofar + "\ndepth " + Number(b.depth) + "  trash " + TrashName(b.trashType));
    BendProseJoined(b, bits, pre);
  }

  lemma PinsNext(route: seq<byte>, i: nat)
    requires i <= |route|
    ensures Pins(route, i) ==
      if i == 0 then "" else " " + Number(i - 1) + ":" + SourceName(route[i - 1]) + Pins(route, i - 1)
  {
    hide Number, SourceName;
  }

  lemma BendProseJoined(b: Recipe, bits: nat, pre: string)
    requires |b.route| >= bits && b.trashType < TRASH_COUNT
    ensures pre + "bend" + Pins(b.route, bits) + "\ndepth " + Number(b.depth) + "  trash " + TrashName(b.trashType) + "\n"
         == pre + BendProse(b, bits)
  {
    hide Pins, Number, TrashName;
  }

  method DescribePin(text: array<char>, at: nat, i: nat, src: byte, ghost pre: string) returns (at': nat)
    requires Holds(text, at, pre) && i < 16
    modifies text
    ensures Holds(text, at', pre + (" " + Number(i) + ":" + SourceName(src)))
  {
    hide Holds, Number, SourceName;
    at' := PutStr(text, at, " ", pre);
    at' := PutNum(text, at', i, pre + " ");
    at' := PutStr(text, at', ":", pre + " " + Number(i));
    at' := PutStr(text, at', SourceName(src), pre + " " + Number(i) + ":");
    assert pre + " " + Number(i) + ":" + SourceName(src) == pre + (" " + Number(i) + ":" + SourceName(src));
  }

  method DescribeSegs(text: array<char>, at: nat, s: Segs, ghost pre: string) returns (at': nat)
    requires Holds(text, at, pre)
    modifies text
    ensures Holds(text, at', pre + SegProse(s))
  {
    hide Holds, Number, LayoutName, Regions, SegCount;
    var n := SegCount(s.layout);
    at' := PutStr(text, at, "seg ", pre);
    at' := PutStr(text, at', LayoutName(s.layout), pre + "seg ");
    ghost var sofar := pre + "seg " + LayoutName(s.layout);
    RegionsNext(0);
    assert sofar + "" == sofar;
    for i := 0 to n
      invariant Holds(text, at', sofar + Regions(i))
    {
      ghost var p := sofar + Regions(i);
      at' := PutStr(text, at', "  ", p);
      at' := PutNum(text, at', i + 1, p + "  ");
      at' := PutStr(text, at', ":", p + "  " + Number(i + 1));
      at' := PutStr(text, at', "bend", p + "  " + Number(i + 1) + ":");
      at' := PutNum(text, at', i + 1, p + "  " + Number(i + 1) + ":" + "bend");
      RegionsNext(i + 1);
      RegionJoined(sofar, Regions(i), Number(i + 1));
    }
    at' := PutStr(text, at', "\n", sofar + Regions(n));
    assert sofar + Regions(n) + "\n" == pre + SegProse(s);
  }

  lemma RegionsNext(n: nat)
    ensures Regions(n) == if n == 0 then "" else Regions(n - 1) + "  " + Number(n) + ":" + "bend" + Number(n)
  {
    hide Number;
  }

  lemma RegionJoined(a: string, r: string, n: string)
    ensures a + r + "  " + n + ":" + "bend" + n == a + (r + "  " + n + ":" + "bend" + n)
  {
  }

  method DescribeChain(text: array<char>, at: nat, c: Chain, ghost pre: string) returns (at': nat)
    requires Holds(text, at, pre) && |c.items| == CHAIN_MAX
    modifies text
    ensures Holds(text, at', pre + ChainProse(c))
  {
    hide Holds, Effects, EffectName, Amount, Label;
    at' := PutStr(text, at, "x", pre);
    ghost var sofar := pre + "x";
    var i := 0;
    EffectsNext(c, 0);
    assert sofar + "" == sofar;
    while i < c.n && i < CHAIN_MAX
      invariant i <= c.n && i <= CHAIN_MAX && Holds(text, at', sofar + Effects(c, i))
    {
      EffectsNext(c, i + 1);
      at' := DescribeEffect(text, at', c.items[i], i > 0, sofar + Effects(c, i));
      EffectJoined(sofar, Effects(c, i), if i > 0 then " >" else "", " " + EffectName(c.items[i].kind), Amount(c.items[i]));
      i := i + 1;
    }
    at' := PutStr(text, at', "\n", sofar + Effects(c, i));
    assert sofar + Effects(c, i) + "\n" == pre + ChainProse(c);
  }

  lemma EffectsNext(c: Chain, n: nat)
    requires n <= |c.items|
    ensures Effects(c, n) ==
      if n == 0 then ""
      else Effects(c, n - 1) + ((if n > 1 then " >" else "") + (" " + EffectName(c.items[n - 1].kind)) + Amount(c.items[n - 1]))
  {
    hide EffectName, Amount;
  }

  lemma EffectJoined(a: string, e: string, s: string, n: string, m: string)
    ensures a + e + (s + n + m) == a + (e + (s + n + m))
  {
  }

  method DescribeEffect(text: array<char>, at: nat, x: Effect, follows: bool, ghost pre: string) returns (at': nat)
    requires Holds(text, at, pre)
    modifies text
    ensures Holds(text, at', pre + ((if follows then " >" else "") + (" " + EffectName(x.kind)) + Amount(x)))
  {
    hide Holds, EffectName, Label;
    at' := at;
    ghost var p := pre;
    assert pre + "" == pre;
    if follows {
      at' := PutStr(text, at', " >", p);
      p := p + " >";
    }
    at' := PutStr(text, at', " ", p);
    at' := PutStr(text, at', EffectName(x.kind), p + " ");
    ghost var q := p + " " + EffectName(x.kind);
    if Label(x) != "" {
      at' := PutStr(text, at', " ", q);
      at' := PutStr(text, at', Label(x), q + " ");
    }
    PiecesJoined(pre, if follows then " >" else "", EffectName(x.kind), Label(x));
    assert q + "" == q;
  }

  lemma PiecesJoined(pre: string, s: string, n: string, l: string)
    ensures pre + s + " " + n + " " + l == pre + (s + (" " + n) + (" " + l))
    ensures pre + s + " " + n == pre + (s + (" " + n) + "")
  {
  }

  method Describe(text: array<char>, t: Shot, bits: nat) returns (at: nat)
    requires text.Length == TEXT_MAX && |t.bend.route| >= bits && bits <= 16 && |t.chain.items| == CHAIN_MAX
    requires Describable(t)
    modifies text
    ensures Holds(text, at, Prose(t, bits))
  {
    at := 0;
    assert Holds(text, 0, "");
    hide Holds, BendProse, SegProse, ChainProse;
    at := PutStr(text, at, MARK, "");
    assert "" + MARK == MARK;
    at := PutStr(text, at, "\n", MARK);
    ghost var p := MARK + "\n";
    ghost var a := if t.bendOn then BendProse(t.bend, bits) else "";
    ghost var b := if t.segs.layout != 0 then SegProse(t.segs) else "";
    NothingAdded(p);
    NothingAdded(p + a);
    NothingAdded(p + a + b);
    if t.bendOn { at := DescribeBend(text, at, t.bend, bits, p); }
    if t.segs.layout != 0 { at := DescribeSegs(text, at, t.segs, p + a); }
    if t.chainOn { at := DescribeChain(text, at, t.chain, p + a + b); }
  }

  lemma NothingAdded(s: string)
    ensures s + "" == s
  {
  }

  // ----- The comment -----

  // Builds the comment of a shot, as a C string; its length is returned.
  method Queue(text: array<char>, t: Shot, bits: nat) returns (len: nat)
    requires text.Length == TEXT_MAX && ShotFormed(t) && Describable(t) && bits <= 16
    modifies text
    ensures len < TEXT_MAX && text[..len] == Text(t, bits) && text[len] == '\0'
  {
    ProseParts(t, bits);
    ProseIsFine(t, bits);
    assert |Prose(t, bits)| <= 334;
    var rec := new byte[REC_MAX];
    hide Prose, Record, ShotFormed, Describable, Hex, Fine;
    var at := Describe(text, t, bits);
    var n := Pack(rec, t);
    if n > 0 && at + n * 2 + 8 < TEXT_MAX {
      ghost var p := Prose(t, bits);
      at := PutStr(text, at, BSH, p);
      at := PutHex(text, at, rec, n, p + BSH);
      at := PutStr(text, at, "\n", p + BSH + Hex(rec[..n]));
      HexIs(rec[..n]);
    }
    text[at] := '\0';
    len := at;
  }

  method PutHex(text: array<char>, at: nat, rec: array<byte>, n: nat, ghost pre: string) returns (at': nat)
    requires Holds(text, at, pre) && n <= rec.Length && text as object != rec as object && at + 2 * n < TEXT_MAX
    modifies text
    ensures Holds(text, at', pre + Hex(rec[..n]))
  {
    hide Holds, Hex;
    at' := at;
    HexLast([], 0);
    assert pre + "" == pre && rec[..0] == [];
    for i := 0 to n
      invariant Holds(text, at', pre + Hex(rec[..i])) && at' == at + 2 * i
    {
      ghost var p := pre + Hex(rec[..i]);
      HexLast(rec[..i], rec[i]);
      assert rec[..i + 1] == rec[..i] + [rec[i]];
      at' := PutChar(text, at', HexDigit(rec[i] / 16 % 16), p);
      at' := PutChar(text, at', HexDigit(rec[i] % 16), p + [HexDigit(rec[i] / 16 % 16)]);
      assert p + [HexDigit(rec[i] / 16)] + [HexDigit(rec[i] % 16)] == p + [HexDigit(rec[i] / 16), HexDigit(rec[i] % 16)];
      assert p + [HexDigit(rec[i] / 16), HexDigit(rec[i] % 16)] == pre + Hex(rec[..i + 1]);
    }
  }

  lemma {:induction false} HexLast(rec: seq<byte>, b: byte)
    ensures Hex(rec + [b]) == Hex(rec) + [HexDigit(b / 16), HexDigit(b % 16)] && Hex([]) == ""
    decreases |rec|
  {
    hide HexDigit;
    if rec == [] {
      assert Hex([b]) == [HexDigit(b / 16), HexDigit(b % 16)] + Hex([]);
    } else {
      HexLast(rec[1..], b);
      assert (rec + [b])[1..] == rec[1..] + [b];
    }
  }

  // The picture with the comment behind it; a comment too long for a segment is not written.
  method Append(pic: string, text: array<char>, len: nat) returns (file: string)
    requires len <= text.Length
    ensures file == Appended(pic, text[..len])
  {
    var seg := len + 2;
    if len == 0 || seg > 0xfffd { return pic; }
    var hdr := [0xff as char, 0xfe as char, (seg / 0x100 % 0x100) as char, (seg % 0x100) as char];
    file := pic + hdr + text[..len];
    assert file == pic + Segment(text[..len]);
  }

  // ----- Reading one back -----

  method Search(s: string, w: string) returns (k: nat)
    requires w != ""
    ensures k == Find(s, w, 0)
  {
    k := 0;
    while k < |s| && !At(s, k, w)
      invariant k <= |s| && Find(s, w, k) == Find(s, w, 0)
    {
      k := k + 1;
    }
  }

  method CString(s: string) returns (r: string)
    ensures r == ToNul(s)
  {
    hide *;
    var n := 0;
    while n < |s| && s[n] != '\0'
      invariant n <= |s| && forall i | 0 <= i < n :: s[i] != '\0'
    {
      n := n + 1;
    }
    r := s[..n];
    ToNulIs(s, n);
  }

  lemma {:induction false} ToNulIs(s: string, n: nat)
    requires n <= |s| && (forall i | 0 <= i < n :: s[i] != '\0') && (n < |s| ==> s[n] == '\0')
    ensures ToNul(s) == s[..n]
  {
    if n > 0 {
      ToNulIs(s[1..], n - 1);
      assert s[..n] == [s[0]] + s[1..][..n - 1];
    }
  }

  // Decodes pairs of hex digits until one is not, or the record is full.
  method Decode(p: string) returns (r: seq<byte>)
    ensures r == Decoded(p, REC_MAX)
  {
    hide Decoded, Unhex;
    var rec := new byte[REC_MAX];
    var at, more := 0, true;
    assert p[0..] == p && rec[..0] + Decoded(p, REC_MAX) == Decoded(p, REC_MAX);
    while at < REC_MAX && more
      invariant at <= REC_MAX && 2 * at <= |p|
      invariant rec[..at] + Decoded(p[2 * at..], REC_MAX - at) == Decoded(p, REC_MAX)
      invariant more || Decoded(p[2 * at..], REC_MAX - at) == []
      decreases REC_MAX - at, more
    {
      at, more := DecodePair(p, rec, at, Decoded(p, REC_MAX));
    }
    r := rec[..at];
    assert r + [] == r;
  }

  method DecodePair(p: string, rec: array<byte>, at: nat, ghost all: seq<byte>) returns (at': nat, more: bool)
    requires rec.Length == REC_MAX && at < REC_MAX && 2 * at <= |p|
    requires rec[..at] + Decoded(p[2 * at..], REC_MAX - at) == all
    modifies rec
    ensures if more then at' == at + 1 else at' == at && Decoded(p[2 * at..], REC_MAX - at) == []
    ensures 2 * at' <= |p| && rec[..at'] + Decoded(p[2 * at'..], REC_MAX - at') == all
  {
    hide Decoded, Unhex;
    var hi := if 2 * at < |p| then Unhex(p[2 * at]) else -1;
    var lo := if hi >= 0 && 2 * at + 1 < |p| then Unhex(p[2 * at + 1]) else -1;
    DecodedNext(p, at, hi, lo);
    at', more := at, false;
    if lo >= 0 {
      rec[at] := hi * 16 + lo;
      assert rec[..at + 1] == rec[..at] + [hi * 16 + lo];
      at', more := at + 1, true;
      Joined(rec[..at], hi * 16 + lo, Decoded(p[2 * at'..], REC_MAX - at'));
    }
  }

  lemma Joined(a: seq<byte>, b: byte, c: seq<byte>)
    ensures a + ([b] + c) == a + [b] + c
  {
  }

  lemma DecodedNext(p: string, at: nat, hi: int, lo: int)
    requires at < REC_MAX && 2 * at <= |p|
    requires hi == if 2 * at < |p| then Unhex(p[2 * at]) else -1
    requires lo == if hi >= 0 && 2 * at + 1 < |p| then Unhex(p[2 * at + 1]) else -1
    ensures lo < 0 ==> Decoded(p[2 * at..], REC_MAX - at) == []
    ensures lo >= 0 ==> 2 * at + 2 <= |p| && 0 <= hi * 16 + lo < 0x100
    ensures lo >= 0 ==> Decoded(p[2 * at..], REC_MAX - at) == [hi * 16 + lo] + Decoded(p[2 * at + 2..], REC_MAX - at - 1)
  {
    var s := p[2 * at..];
    assert |s| >= 2 ==> s[2..] == p[2 * at + 2..];
    assert forall c: char :: Unhex(c) < 16;
    hide Unhex;
  }

  method Read(file: string, nbits: byte) returns (r: Option<Shot>)
    ensures r == ReadTag(file, nbits)
  {
    hide Tail, Find, ToNul, Decoded, Unpacked;
    var win := Tail(file);
    if |win| < MARK_LEN + 1 { return None; }
    var i := Search(win, MARK);
    if i == |win| { return None; }
    var rest := CString(win[i..]);
    var k := Search(rest, BSH);
    if k == |rest| { return None; }
    var rec := Decode(rest[k + 5..]);
    r := Unpacked(rec, nbits);
  }
}
