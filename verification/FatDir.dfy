/** Directory records and the names they stand for (chdk-src/core/chdk-dir.c).  The layout of long-name
    records is that of the sections "FAT Long Directory Entries" and "Organization and Association of
    Short & Long Directory Entries" of the Microsoft FAT32 File System Specification, version 1.03. */
module FatNames {
  import Bits
  import opened Options
  import opened Words

  // One directory record.
  type Entry = e: seq<byte> | |e| == 32 witness seq(32, _ => 0)

  type Name = seq<byte>

  const ATTR_LFN := 0xf

  predicate IsSkipped(e: Entry) { e[0] == 0xe5 || e[11] % 16 == 8 }   // erased, or a volume label

  predicate HasStartFlag(e: Entry) { e[0] / 0x40 % 2 == 1 }

  // Where the thirteen characters of a long-name record are, last one first.
  const LFN_CHPOS: seq<nat> := [30, 28, 24, 22, 20, 18, 16, 14, 9, 7, 5, 3, 1]

  function Unit(e: Entry, n: nat): nat
    requires n < 13
  {
    e[LFN_CHPOS[n]] as int + 0x100 * e[LFN_CHPOS[n] + 1] as int
  }

  predicate IsPad(u: int) { u == 0xffff || u == 0 }

  predicate IsAllowed(u: int) {
    || '0' as int <= u <= '9' as int || '@' as int <= u <= 'Z' as int || 'a' as int <= u <= 'z' as int
    || u in {'.' as int, '-' as int, '_' as int, '(' as int, ')' as int, '$' as int, '&' as int}
  }

  // The checksum of the eleven short-name characters.
  function Checksum(s: seq<byte>): byte {
    if s == [] then 0
    else var c := Checksum(s[..|s| - 1]); (c % 2 * 0x80 + c / 2 + s[|s| - 1]) % 0x100
  }

  function UntilSpace(s: seq<byte>): seq<byte> {
    if s == [] || s[0] == 0x20 then [] else [s[0]] + UntilSpace(s[1..])
  }

  // What strcpy takes of a buffer.
  function UntilZero(s: seq<byte>): seq<byte> {
    if s == [] || s[0] == 0 then [] else [s[0]] + UntilZero(s[1..])
  }

  function ShortName(e: Entry): Name {
    UntilZero(e[..1] + UntilSpace(e[1..8]) + (if e[8] != 0x20 then ['.' as int] else []) + UntilSpace(e[8..11]))
  }

  // ----- The parser as a function -----

  // What is known of a long-name block in progress: one more than the records still to come (0 when
  // there is none), the part of the name read so far, and the checksum its records carry.
  datatype Block = Block(left: nat, name: Name, sum: byte)

  const NO_BLOCK := Block(0, [], 0)

  // Prepends the characters of record e from position n of the table on; None after a character that
  // the program does not support.
  function Prepend(e: Entry, n: nat, name: Name): Option<Name>
    requires n <= 13
    decreases 13 - n
  {
    if n == 13 then Some(name)
    else if IsPad(Unit(e, n)) then Prepend(e, n + 1, name)
    else if IsAllowed(Unit(e, n)) then Prepend(e, n + 1, [Unit(e, n)] + name)
    else None
  }

  function Continue(e: Entry, b: Block): Block {
    if e[13] != b.sum || HasStartFlag(e) || e[0] != b.left - 1 then b.(left := 0)
    else match Prepend(e, 0, b.name)
      case None => b.(left := 0)
      case Some(name) => if |name| > 99 then b.(left := 0) else Block(e[0], name, b.sum)
  }

  function Start(e: Entry, b: Block): Block {
    if HasStartFlag(e) && e[0] - 0x40 <= 8 then
      match Prepend(e, 0, [])
      case None => b.(left := 0)
      case Some(name) => Block(e[0] - 0x40, name, e[13])
    else b
  }

  // One call of CHDKReadDir over the records still ahead: the name it returns, and what is left.
  function Next(es: seq<Entry>, b: Block, mnl: int): (r: (Option<Name>, seq<Entry>))
    ensures |r.1| <= |es| && (r.0.Some? ==> |r.1| < |es|)
    decreases |es|, b.left
  {
    if es == [] then (None, [])
    else
      var e, rest := es[0], es[1..];
      if e[0] == 0 then (None, rest)
      else if IsSkipped(e) then Next(rest, b.(left := 0), mnl)
      else if e[11] == ATTR_LFN then Next(rest, if b.left > 0 then Continue(e, b) else Start(e, b), mnl)
      else if b.left == 0 then (Some(ShortName(e)), rest)
      else if b.left == 1 then
        if Checksum(e[..11]) == b.sum && |b.name| <= mnl then (Some(b.name), rest)
        else Next(es, b.(left := 0), mnl)       // rewind, and read the record again by itself
      else Next(rest, b.(left := 0), mnl)
  }

  // All the names, in the order the calls return them.
  function List(es: seq<Entry>, mnl: int): seq<Name>
    decreases |es|
  {
    var r := Next(es, NO_BLOCK, mnl);
    if r.0.None? then [] else [r.0.value] + List(r.1, mnl)
  }

  // ----- What a directory holds -----

  // An erased record or a label; a file with a short name only; a file with a complete block of long-name
  // records, in order of falling ordinal, in front of its short one; or the records such a block begins
  // with, without the short one they belong to.
  datatype Item =
    | Dead(e: Entry)
    | Bare(e: Entry)
    | Long(name: seq<nat>, sum: byte, records: seq<Entry>, e: Entry)
    | Orphan(name: seq<nat>, sum: byte, records: seq<Entry>)

  // The layout is told on the bytes alone, as the specification of the file system has it.
  predicate IsDead(e: Entry) { e[0] == 0xe5 || e[11] % 16 == 8 }

  predicate IsShort(e: Entry) { e[0] != 0 && !IsDead(e) && e[11] != 15 }

  // Where the thirteen characters of a long-name record are: five from byte 1 on, six from byte 14 on and
  // two from byte 28 on, each as a word with its low byte first.
  function CharAt(c: nat): (p: nat)
    requires c < 13
    ensures p < 31
  {
    if c < 5 then 1 + 2 * c else if c < 11 then 14 + 2 * (c - 5) else 28 + 2 * (c - 11)
  }

  // Character c of a record with ordinal i is the name's, or padding when the name is over.
  ghost predicate HasChar(r: Entry, i: nat, name: seq<nat>, c: nat)
    requires 1 <= i && c < 13
  {
    var u := r[CharAt(c)] as int + 0x100 * r[CharAt(c) + 1] as int;
    if 13 * (i - 1) + c < |name| then u == name[13 * (i - 1) + c] else u == 0 || u == 0xffff
  }

  // The long-name record with ordinal i of k: thirteen characters, the unused ones padded.
  ghost predicate IsRecord(r: Entry, i: nat, k: nat, name: seq<nat>, sum: byte)
    requires 1 <= i <= k
  {
    && r[0] == i + (if i == k then 0x40 else 0) && r[11] == 15 && r[13] == sum
    && forall c: nat | c < 13 :: HasChar(r, i, name, c)
  }

  // How many records the block of a long name has.
  function Total(it: Item): nat
    requires it.Long? || it.Orphan?
  {
    (|it.name| + 12) / 13
  }

  // The records of the item are the first ones of the block of its name.
  ghost predicate Begins(it: Item)
    requires it.Long? || it.Orphan?
  {
    && 1 <= |it.name| <= 255 && 1 <= |it.records| <= Total(it)
    && (forall j | 0 <= j < |it.name| :: 0 < it.name[j] < 0xffff)
    && (forall j | 0 <= j < |it.records| :: IsRecord(it.records[j], Total(it) - j, Total(it), it.name, it.sum))
  }

  ghost predicate Formed(it: Item) {
    match it
    case Dead(e) => e[0] != 0 && IsDead(e)
    case Bare(e) => IsShort(e)
    case Long(_, _, records, e) => IsShort(e) && Begins(it) && |records| == Total(it)
    case Orphan(_, _, _) => Begins(it)
  }

  function Records(it: Item): seq<Entry> {
    match it
    case Dead(e) => [e]
    case Bare(e) => [e]
    case Long(_, _, records, e) => records + [e]
    case Orphan(_, _, records) => records
  }

  function Directory(items: seq<Item>): seq<Entry> {
    if items == [] then [] else Records(items[0]) + Directory(items[1..])
  }

  predicate AllAllowed(name: seq<nat>) { forall j | 0 <= j < |name| :: IsAllowed(name[j]) }

  // When the long name is the one to show.
  predicate LongNameUsable(name: seq<nat>, sum: byte, e: Entry, mnl: int) {
    AllAllowed(name) && |name| <= 99 && |name| <= mnl && Checksum(e[..11]) == sum
  }

  function AsName(s: seq<nat>): (r: Name)
    requires AllAllowed(s)
    ensures |r| == |s|
  {
    seq(|s|, j requires 0 <= j < |s| => s[j])
  }

  // The name of a short record with a complete block of these in front of it.
  function LongOrShort(name: seq<nat>, sum: byte, e: Entry, mnl: int): Name {
    if LongNameUsable(name, sum, e, mnl) then AsName(name) else ShortName(e)
  }

  // The name a listing should show for an item; an orphan has none.
  function ShownName(it: Item, mnl: int): seq<Name> {
    match it
    case Dead(_) => []
    case Bare(e) => [ShortName(e)]
    case Long(name, sum, _, e) => [LongOrShort(name, sum, e, mnl)]
    case Orphan(_, _, _) => []
  }

  function Shown(items: seq<Item>, mnl: int): seq<Name> {
    if items == [] then [] else ShownName(items[0], mnl) + Shown(items[1..], mnl)
  }

  // ----- What orphaned records do to the item behind them -----

  // The part of the name that the records down to ordinal i carry can be read.
  predicate CanRead(name: seq<nat>, i: nat)
    requires 1 <= i && 13 * (i - 1) <= |name|
  {
    AllAllowed(name[13 * (i - 1)..]) && |name| - 13 * (i - 1) <= 99
  }

  // The ordinal of the last record an orphan has.
  function Lowest(it: Item): int
    requires it.Orphan?
  {
    Total(it) - |it.records| + 1
  }

  // Whether the program takes the orphan for a block that is still to be finished.
  predicate LeavesOpen(it: Item)
    requires it.Orphan? && 1 <= |it.name| && 1 <= |it.records| <= Total(it)
  {
    Total(it) <= 8 && CanRead(it.name, Lowest(it))
  }

  // The open orphan in front of what comes after the item.
  ghost function OpenAfter(open: Option<Item>, it: Item): Option<Item>
    requires Formed(it)
  {
    if it.Orphan? && open.None? && LeavesOpen(it) then Some(it) else None
  }

  // The name that is listed for an item: behind an open orphan the first record of a block is taken for an
  // error, and a short record for the end of the orphan's block, which is complete or not.
  function ListedName(open: Option<Item>, it: Item, mnl: int): seq<Name>
    requires open.Some? ==> open.value.Orphan?
  {
    match it
    case Dead(_) => []
    case Orphan(_, _, _) => []
    case Long(name, sum, _, e) => [if open.None? then LongOrShort(name, sum, e, mnl) else ShortName(e)]
    case Bare(e) =>
      if open.None? then [ShortName(e)]
      else if Lowest(open.value) > 1 then []
      else [LongOrShort(open.value.name, open.value.sum, e, mnl)]
  }

  ghost function Listed(open: Option<Item>, items: seq<Item>, mnl: int): seq<Name>
    requires open.Some? ==> open.value.Orphan?
    requires forall i | 0 <= i < |items| :: Formed(items[i])
    decreases |items|
  {
    if items == [] then []
    else ListedName(open, items[0], mnl) + Listed(OpenAfter(open, items[0]), items[1..], mnl)
  }

  // An open orphan spoils a short record if its block lacks records, or if it lends it its own name; it
  // spoils a complete block by the loss of its long name.
  predicate Spoils(open: Option<Item>, it: Item, mnl: int)
    requires open.Some? ==> open.value.Orphan?
  {
    open.Some? &&
    match it
    case Bare(e) => Lowest(open.value) > 1 || Renames(open.value.name, open.value.sum, e, mnl)
    case Long(name, sum, _, e) => Renames(name, sum, e, mnl)
    case _ => false
  }

  predicate Renames(name: seq<nat>, sum: byte, e: Entry, mnl: int) {
    LongNameUsable(name, sum, e, mnl) && AsName(name) != ShortName(e)
  }

  ghost predicate NoneSpoiled(open: Option<Item>, items: seq<Item>, mnl: int)
    requires open.Some? ==> open.value.Orphan?
    requires forall i | 0 <= i < |items| :: Formed(items[i])
    decreases |items|
  {
    items == [] || (!Spoils(open, items[0], mnl) && NoneSpoiled(OpenAfter(open, items[0]), items[1..], mnl))
  }

  lemma SpoilsIs(open: Option<Item>, it: Item, mnl: int)
    requires open.Some? ==> open.value.Orphan?
    ensures Spoils(open, it, mnl) <==> ListedName(open, it, mnl) != ShownName(it, mnl)
    ensures |ListedName(open, it, mnl)| <= |ShownName(it, mnl)| <= 1
  {
    hide LongNameUsable, ShortName, AsName;
  }

  // The listing is as it should be exactly when no item is spoiled: one that is not listed cannot be made
  // up for by another.
  lemma {:induction false} ShownIfNoneSpoiled(open: Option<Item>, items: seq<Item>, mnl: int)
    requires open.Some? ==> open.value.Orphan?
    requires forall i | 0 <= i < |items| :: Formed(items[i])
    ensures |Listed(open, items, mnl)| <= |Shown(items, mnl)|
    ensures Listed(open, items, mnl) == Shown(items, mnl) <==> NoneSpoiled(open, items, mnl)
    decreases |items|
  {
    hide Formed, Spoils, ListedName, ShownName, LeavesOpen;
    if items != [] {
      SpoilsIs(open, items[0], mnl);
      var next := OpenAfter(open, items[0]);
      var a, b := ListedName(open, items[0], mnl), ShownName(items[0], mnl);
      var l, r := Listed(next, items[1..], mnl), Shown(items[1..], mnl);
      ShownIfNoneSpoiled(next, items[1..], mnl);
      if a + l == b + r {
        assert |a| == |b|;
        assert (a + l)[..|a|] == a && (b + r)[..|a|] == b;
        assert (a + l)[|a|..] == l && (b + r)[|a|..] == r;
      }
    }
  }

  // Only an orphan spoils anything.
  lemma {:induction false} NoOrphanNoHarm(items: seq<Item>, mnl: int)
    requires forall i | 0 <= i < |items| :: Formed(items[i]) && !items[i].Orphan?
    ensures NoneSpoiled(None, items, mnl)
  {
    hide Formed, ShortName, LongOrShort, LeavesOpen;
    if items != [] { NoOrphanNoHarm(items[1..], mnl); }
  }

  // ----- The parser reads back what the directory holds -----

  // With every byte the checksum turns right by one bit, the lowest coming in at the top, and the byte is
  // added; it begins with zero and wraps at eight bits.
  lemma ChecksumTurns(s: seq<byte>, b: byte) returns (t: nat)
    ensures t < 0x100 && forall i: nat | i < 8 :: Bits.Bit(t, i) == Bits.Bit(Checksum(s), (i + 1) % 8)
    ensures Checksum([]) == 0 && Checksum(s + [b]) == (t + b) % 0x100
  {
    var c := Checksum(s);
    t := c / 2 + 0x80 * (c % 2);
    assert (s + [b])[..|s|] == s;
    TurnedRight(c, t);
    hide Checksum;
  }

  lemma TurnedRight(c: nat, t: nat)
    requires c < 0x100 && t == c / 2 + 0x80 * (c % 2)
    ensures forall i: nat | i < 8 :: Bits.Bit(t, i) == Bits.Bit(c, (i + 1) % 8)
  {
    assert Bits.Pow2(7) == 0x80;
    hide Bits.Bit;
    Bits.NoBits(c, 8);
    forall i: nat | i < 8 ensures Bits.Bit(t, i) == Bits.Bit(c, (i + 1) % 8) {
      Bits.BitOfSum(c % 2, c / 2, 7, i);
      Bits.BitOfShr(c, 1, i);
      Bits.LowestBit(c);
    }
  }

  // The name's characters lo..hi in front of the tail, if they are all supported.
  ghost function Piece(name: seq<nat>, lo: nat, hi: nat, tail: Name): Option<Name>
    requires lo <= hi <= |name|
  {
    if AllAllowed(name[lo..hi]) then Some(AsName(name[lo..hi]) + tail) else None
  }

  lemma PieceGrows(name: seq<nat>, lo: nat, hi: nat, tail: Name)
    requires lo <= hi < |name|
    ensures Piece(name, lo, hi + 1, tail)
         == if IsAllowed(name[hi]) then Piece(name, lo, hi, [name[hi] as byte] + tail) else None
  {
    var s, u := name[lo..hi], name[hi];
    assert name[lo..hi + 1] == s + [u];
    assert (s + [u])[|s|] == u;
    if AllAllowed(s) && IsAllowed(u) {
      assert AsName(s + [u]) + tail == AsName(s) + ([u as byte] + tail);
    } else if IsAllowed(u) {
      var j :| 0 <= j < |s| && !IsAllowed(s[j]);
      assert (s + [u])[j] == s[j];
    }
  }

  lemma PieceEmpty(name: seq<nat>, lo: nat, tail: Name)
    requires lo <= |name|
    ensures Piece(name, lo, lo, tail) == Some(tail)
  {
    assert AsName([]) + tail == tail;
  }

  // A piece in front of all that follows it.
  lemma PieceOfRest(name: seq<nat>, lo: nat, m: nat, tail: Name)
    requires lo <= m <= |name| && AllAllowed(name[m..]) && tail == AsName(name[m..])
    ensures Piece(name, lo, m, tail) == if AllAllowed(name[lo..]) then Some(AsName(name[lo..])) else None
    ensures !AllAllowed(name[lo..]) ==> !AllAllowed(name)
  {
    var s := name[lo..m];
    assert name[lo..] == s + name[m..];
    if AllAllowed(s) {
      assert AsName(name[lo..]) == AsName(s) + tail;
    } else {
      var j :| 0 <= j < |s| && !IsAllowed(s[j]);
      assert !IsAllowed(name[lo..][j]) && !IsAllowed(name[lo + j]);
    }
  }

  lemma PrependNext(r: Entry, n: nat, name: Name)
    requires n <= 13
    ensures n == 13 ==> Prepend(r, n, name) == Some(name)
    ensures n < 13 && IsPad(Unit(r, n)) ==> Prepend(r, n, name) == Prepend(r, n + 1, name)
    ensures n < 13 && !IsPad(Unit(r, n)) && IsAllowed(Unit(r, n)) ==>
      0 < Unit(r, n) < 0x80 && Prepend(r, n, name) == Prepend(r, n + 1, [Unit(r, n)] + name)
    ensures n < 13 && !IsPad(Unit(r, n)) && !IsAllowed(Unit(r, n)) ==> Prepend(r, n, name) == None
  {
    hide Unit;
  }

  lemma AllowedFits(u: int)
    requires IsAllowed(u)
    ensures 0 < u < 0x80
  {
  }

  // The table holds those places, last one first.
  lemma TableIs(r: Entry, c: nat)
    requires c < 13
    ensures Unit(r, 12 - c) == r[CharAt(c)] as int + 0x100 * r[CharAt(c) + 1] as int
  {
    assert LFN_CHPOS[12 - c] == CharAt(c);
  }

  lemma UnitIs(r: Entry, i: nat, name: seq<nat>, c: nat)
    requires 1 <= i && c < 13 && HasChar(r, i, name, c) && forall j | 0 <= j < |name| :: 0 < name[j] < 0xffff
    ensures if 13 * (i - 1) + c < |name|
            then Unit(r, 12 - c) == name[13 * (i - 1) + c] && !IsPad(Unit(r, 12 - c)) else IsPad(Unit(r, 12 - c))
  {
    TableIs(r, c);
    hide Unit, CharAt;
  }

  // Reading record i from table position n on puts its first 13 - n characters in front.
  lemma {:induction false} PrependReads(r: Entry, i: nat, name: seq<nat>, n: nat, tail: Name)
    requires 1 <= i && n <= 13
    requires forall c: nat | c < 13 :: HasChar(r, i, name, c)
    requires forall j | 0 <= j < |name| :: 0 < name[j] < 0xffff
    requires 13 * (i - 1) <= |name|
    ensures var lo := 13 * (i - 1); var hi := if lo + 13 - n < |name| then lo + 13 - n else |name|;
      Prepend(r, n, tail) == Piece(name, lo, hi, tail)
    decreases 13 - n
  {
    hide *;
    var lo := 13 * (i - 1);
    if n == 13 {
      PieceEmpty(name, lo, tail);
      PrependNext(r, n, tail);
    } else {
      var c := 12 - n;
      PrependNext(r, n, tail);
      UnitIs(r, i, name, c);
      if lo + c < |name| {
        PieceGrows(name, lo, lo + c, tail);
        if IsAllowed(name[lo + c]) {
          AllowedFits(name[lo + c]);
          PrependReads(r, i, name, n + 1, [name[lo + c] as byte] + tail);
        }
      } else {
        PrependReads(r, i, name, n + 1, tail);
      }
    }
  }

  // The records of a block from number j on, then its short record, then the rest of the directory.
  function From(it: Item, j: nat, rest: seq<Entry>): (es: seq<Entry>)
    requires it.Long? && j <= |it.records|
    ensures es != []
  {
    it.records[j..] + [it.e] + rest
  }

  lemma FromNext(it: Item, j: nat, rest: seq<Entry>)
    requires it.Long? && j <= |it.records|
    ensures j < |it.records| ==> From(it, j, rest)[0] == it.records[j] && From(it, j, rest)[1..] == From(it, j + 1, rest)
    ensures j == |it.records| ==> From(it, j, rest)[0] == it.e && From(it, j, rest)[1..] == rest
  {
  }

  // What the parser does with a record, by its kind.
  lemma NextRecord(e: Entry, es: seq<Entry>, b: Block, mnl: int)
    requires e[0] != 0
    ensures var next := Next([e] + es, b, mnl);
      if IsSkipped(e) then next == Next(es, b.(left := 0), mnl)
      else if e[11] == ATTR_LFN then next == Next(es, if b.left > 0 then Continue(e, b) else Start(e, b), mnl)
      else if b.left == 0 then next == (Some(ShortName(e)), es)
      else if b.left > 1 then next == Next(es, b.(left := 0), mnl)
      else next == (Some(if Checksum(e[..11]) == b.sum && |b.name| <= mnl then b.name else ShortName(e)), es)
  {
    hide ShortName, Checksum, Continue, Start;
    assert Next([e] + es, b.(left := 0), mnl)
        == if e[0] != 0 && !IsSkipped(e) && e[11] != ATTR_LFN then (Some(ShortName(e)), es) else Next([e] + es, b.(left := 0), mnl);
  }

  lemma RecordAt(it: Item, j: nat)
    requires (it.Long? || it.Orphan?) && Begins(it) && j < |it.records|
    ensures j < Total(it) && IsRecord(it.records[j], Total(it) - j, Total(it), it.name, it.sum)
    ensures var r := it.records[j];
      && r[0] != 0 && !IsSkipped(r) && r[11] == ATTR_LFN && r[13] == it.sum && HasStartFlag(r) == (j == 0)
      && r[0] == Total(it) - j + (if j == 0 then 0x40 else 0)
  {
    hide HasChar;
  }

  // Past its first record, a block that is not being read is skipped up to its short record.
  lemma {:induction false} SkipsBlock(it: Item, j: nat, b: Block, rest: seq<Entry>, mnl: int)
    requires it.Long? && Formed(it) && 1 <= j <= |it.records| && b.left == 0
    ensures Next(From(it, j, rest), b, mnl) == (Some(ShortName(it.e)), rest)
    decreases |it.records| - j
  {
    FromNext(it, j, rest);
    var es := From(it, j, rest);
    assert es == [es[0]] + es[1..];
    if j < |it.records| {
      RecordAt(it, j);
      NextRecord(es[0], es[1..], b, mnl);
      SkipsBlock(it, j + 1, b, rest, mnl);
    } else {
      NextRecord(es[0], es[1..], b, mnl);
    }
    hide Next, From;
  }

  // So is an orphan.
  lemma {:induction false} SkipsOrphan(it: Item, j: nat, b: Block, rest: seq<Entry>, mnl: int)
    requires it.Orphan? && Formed(it) && 1 <= j <= |it.records| && b.left == 0
    ensures Next(it.records[j..] + rest, b, mnl) == Next(rest, b, mnl)
    decreases |it.records| - j
  {
    hide Next;
    if j < |it.records| {
      RecordAt(it, j);
      assert it.records[j..] + rest == [it.records[j]] + (it.records[j + 1..] + rest);
      NextRecord(it.records[j], it.records[j + 1..] + rest, b, mnl);
      SkipsOrphan(it, j + 1, b, rest, mnl);
    } else {
      assert it.records[j..] + rest == rest;
    }
  }

  // The block whose record with ordinal i has just been read has the name from position 13*(i - 1) on.
  ghost predicate ReadDownTo(it: Item, i: nat, b: Block)
    requires it.Long? || it.Orphan?
  {
    && 1 <= i <= Total(it) && 13 * (i - 1) <= |it.name| && b.left == i && b.sum == it.sum
    && CanRead(it.name, i) && b.name == AsName(it.name[13 * (i - 1)..])
  }

  // Reading record i puts its characters in front of the ones that follow them in the name.
  lemma ReadsPiece(it: Item, i: nat, tail: Name)
    requires (it.Long? || it.Orphan?) && Begins(it) && 1 <= i <= Total(it) && Total(it) - i < |it.records|
    requires var m := if i == Total(it) then |it.name| else 13 * i;
      AllAllowed(it.name[m..]) && tail == AsName(it.name[m..])
    ensures 13 * (i - 1) <= |it.name|
    ensures var lo := 13 * (i - 1);
      Prepend(it.records[Total(it) - i], 0, tail)
        == (if AllAllowed(it.name[lo..]) then Some(AsName(it.name[lo..])) else None)
  {
    var r, m := it.records[Total(it) - i], if i == Total(it) then |it.name| else 13 * i;
    assert IsRecord(r, i, Total(it), it.name, it.sum);
    hide AllAllowed, AsName, Piece;
    PrependReads(r, i, it.name, 0, tail);
    PieceOfRest(it.name, 13 * (i - 1), m, tail);
  }

  lemma ContinueStep(e: Entry, b: Block)
    ensures e[13] != b.sum || HasStartFlag(e) || e[0] != b.left - 1 ==> Continue(e, b) == b.(left := 0)
    ensures e[13] == b.sum && !HasStartFlag(e) && e[0] == b.left - 1 ==>
      match Prepend(e, 0, b.name)
      case None => Continue(e, b) == b.(left := 0)
      case Some(name) => Continue(e, b) == (if |name| > 99 then b.(left := 0) else Block(e[0], name, b.sum))
  {
  }

  lemma StartStep(e: Entry, b: Block)
    ensures !(HasStartFlag(e) && e[0] - 0x40 <= 8) ==> Start(e, b) == b
    ensures HasStartFlag(e) ==> e[0] >= 0x40
    ensures HasStartFlag(e) && e[0] - 0x40 <= 8 ==>
      match Prepend(e, 0, [])
      case None => Start(e, b) == b.(left := 0)
      case Some(name) => Start(e, b) == Block(e[0] - 0x40, name, e[13])
  {
  }

  // The first record of a block opens it exactly when the block is not too long and its piece can be read.
  lemma ReadsFirst(it: Item, b: Block)
    requires (it.Long? || it.Orphan?) && Begins(it) && b.left == 0
    ensures 13 * (Total(it) - 1) <= |it.name|
    ensures var b' := Start(it.records[0], b);
      if Total(it) <= 8 && CanRead(it.name, Total(it)) then ReadDownTo(it, Total(it), b') else b'.left == 0
  {
    var k := Total(it);
    RecordAt(it, 0);
    assert it.name[|it.name|..] == [] && AsName([]) == [];
    ReadsPiece(it, k, []);
    StartStep(it.records[0], b);
    hide AllAllowed, AsName, Prepend, Begins, Start, IsRecord, IsSkipped;
  }

  // The next record keeps it open exactly when the longer piece can be read.
  lemma ReadsNext(it: Item, i: nat, b: Block)
    requires (it.Long? || it.Orphan?) && Begins(it) && ReadDownTo(it, i, b) && i > 1 && Total(it) - i + 1 < |it.records|
    ensures 13 * (i - 2) <= |it.name|
    ensures var b' := Continue(it.records[Total(it) - i + 1], b);
      if CanRead(it.name, i - 1) then ReadDownTo(it, i - 1, b') else b'.left == 0
  {
    hide *;
    ReadParts(it, i, b);
    var r, piece := it.records[Total(it) - i + 1], it.name[13 * (i - 2)..];
    RecordAt(it, Total(it) - i + 1);
    ReadsPiece(it, i - 1, b.name);
    ContinueStep(r, b);
    CanReadIs(it.name, i - 1);
    if CanRead(it.name, i - 1) { ReadMade(it, i - 1, Continue(r, b)); }
  }

  lemma ReadParts(it: Item, i: nat, b: Block)
    requires (it.Long? || it.Orphan?) && ReadDownTo(it, i, b)
    ensures 1 <= i <= Total(it) && 13 * (i - 1) <= |it.name| && b.left == i && b.sum == it.sum
    ensures AllAllowed(it.name[13 * (i - 1)..]) && b.name == AsName(it.name[13 * (i - 1)..])
  {
  }

  lemma ReadMade(it: Item, i: nat, b: Block)
    requires (it.Long? || it.Orphan?) && 1 <= i <= Total(it) && 13 * (i - 1) <= |it.name| && b.left == i && b.sum == it.sum
    requires CanRead(it.name, i) && AllAllowed(it.name[13 * (i - 1)..]) && b.name == AsName(it.name[13 * (i - 1)..])
    ensures ReadDownTo(it, i, b)
  {
  }

  lemma CanReadIs(name: seq<nat>, i: nat)
    requires 1 <= i && 13 * (i - 1) <= |name|
    ensures CanRead(name, i) <==> AllAllowed(name[13 * (i - 1)..]) && |name[13 * (i - 1)..]| <= 99
  {
  }

  // What can be read of a name as a whole can be read of its end.
  lemma CanReadEnd(name: seq<nat>, i: nat, j: nat)
    requires 1 <= i <= j && 13 * (j - 1) <= |name| && CanRead(name, i)
    ensures CanRead(name, j)
  {
    var s, d := name[13 * (i - 1)..], 13 * (j - i);
    assert name[13 * (j - 1)..] == s[d..];
    forall k | 0 <= k < |s[d..]| ensures IsAllowed(s[d..][k]) {
      var m := k + d;
      assert s[d..][k] == s[m];
    }
  }

  // The whole name can be read if it is the one to show.
  lemma UsableIsReadable(name: seq<nat>, sum: byte, e: Entry, mnl: int)
    requires LongNameUsable(name, sum, e, mnl)
    ensures CanRead(name, 1)
  {
    assert name[0..] == name;
  }

  lemma NotUsable(it: Item, i: nat, mnl: int)
    requires it.Long? && 1 <= i && 13 * (i - 1) <= |it.name| && !CanRead(it.name, i)
    ensures !LongNameUsable(it.name, it.sum, it.e, mnl)
  {
    if LongNameUsable(it.name, it.sum, it.e, mnl) {
      UsableIsReadable(it.name, it.sum, it.e, mnl);
      CanReadEnd(it.name, 1, i);
    }
  }

  // A complete block read down to record i lists the name it should, and leaves the rest.
  lemma {:induction false} ReadsBlock(it: Item, i: nat, b: Block, rest: seq<Entry>, mnl: int)
    requires it.Long? && Formed(it) && ReadDownTo(it, i, b)
    ensures Next(From(it, Total(it) - i + 1, rest), b, mnl) == (Some(LongOrShort(it.name, it.sum, it.e, mnl)), rest)
    decreases i
  {
    hide Next, LongOrShort, AllAllowed;
    var j := Total(it) - i + 1;
    FromNext(it, j, rest);
    var es := From(it, j, rest);
    assert es == [es[0]] + es[1..];
    if i == 1 {
      NextRecord(es[0], es[1..], b, mnl);
      BlockIsOver(it, b, it.e, mnl);
    } else {
      RecordAt(it, j);
      NextRecord(es[0], es[1..], b, mnl);
      ReadsNext(it, i, b);
      var b' := Continue(it.records[j], b);
      if CanRead(it.name, i - 1) {
        ReadsBlock(it, i - 1, b', rest, mnl);
      } else {
        NotUsable(it, i - 1, mnl);
        SkipsBlock(it, j + 1, b', rest, mnl);
        NotLong(it.name, it.sum, it.e, mnl);
      }
    }
  }

  lemma NotLong(name: seq<nat>, sum: byte, e: Entry, mnl: int)
    requires !LongNameUsable(name, sum, e, mnl)
    ensures LongOrShort(name, sum, e, mnl) == ShortName(e)
  {
  }

  // All records read, the checksum and the length decide.
  lemma BlockIsOver(it: Item, b: Block, e: Entry, mnl: int)
    requires (it.Long? || it.Orphan?) && ReadDownTo(it, 1, b)
    ensures LongOrShort(it.name, it.sum, e, mnl)
         == if Checksum(e[..11]) == b.sum && |b.name| <= mnl then b.name else ShortName(e)
  {
    assert it.name[0..] == it.name;
    hide Checksum, ShortName;
  }

  // A complete block lists the name it should.
  lemma ReadsLong(it: Item, b: Block, rest: seq<Entry>, mnl: int)
    requires it.Long? && Formed(it) && b.left == 0
    ensures Next(Records(it) + rest, b, mnl) == (Some(LongOrShort(it.name, it.sum, it.e, mnl)), rest)
  {
    FirstOf(it, rest);
    hide Next, AllAllowed, LongOrShort, From, Records;
    RecordAt(it, 0);
    NextRecord(it.records[0], From(it, 1, rest), b, mnl);
    ReadsFirst(it, b);
    var b', k := Start(it.records[0], b), Total(it);
    if k <= 8 && CanRead(it.name, k) {
      ReadsBlock(it, k, b', rest, mnl);
    } else {
      if k <= 8 { NotUsable(it, k, mnl); }
      SkipsBlock(it, 1, b', rest, mnl);
      NotLong(it.name, it.sum, it.e, mnl);
    }
  }

  lemma FirstOf(it: Item, rest: seq<Entry>)
    requires it.Long? && Formed(it)
    ensures Records(it) + rest == [it.records[0]] + From(it, 1, rest)
  {
  }

  // Behind an open orphan its first record is taken for an error, and the block is skipped.
  lemma SpoilsLong(it: Item, b: Block, rest: seq<Entry>, mnl: int)
    requires it.Long? && Formed(it) && b.left > 0
    ensures Next(Records(it) + rest, b, mnl) == (Some(ShortName(it.e)), rest)
  {
    FirstOf(it, rest);
    hide Next, From, Records;
    RecordAt(it, 0);
    NextRecord(it.records[0], From(it, 1, rest), b, mnl);
    SkipsBlock(it, 1, b.(left := 0), rest, mnl);
  }

  // The parser is in the middle of the orphan's block, or of none.
  ghost predicate Stands(open: Option<Item>, b: Block) {
    if open.None? then b.left == 0
    else open.value.Orphan? && Formed(open.value) && ReadDownTo(open.value, Lowest(open.value), b)
  }

  // The records of an orphan read from number j on.
  lemma {:induction false} ReadsOrphan(it: Item, j: nat, b: Block, rest: seq<Entry>, mnl: int) returns (b': Block)
    requires it.Orphan? && Formed(it) && 1 <= j <= |it.records| && Total(it) <= 8 && ReadDownTo(it, Total(it) - j + 1, b)
    ensures Next(it.records[j..] + rest, b, mnl) == Next(rest, b', mnl)
    ensures Stands(if LeavesOpen(it) then Some(it) else None, b')
    decreases |it.records| - j
  {
    hide Next, AllAllowed;
    var i := Total(it) - j + 1;
    if j == |it.records| {
      assert it.records[j..] + rest == rest;
      b' := b;
    } else {
      RecordAt(it, j);
      assert it.records[j..] + rest == [it.records[j]] + (it.records[j + 1..] + rest);
      NextRecord(it.records[j], it.records[j + 1..] + rest, b, mnl);
      ReadsNext(it, i, b);
      var c := Continue(it.records[j], b);
      if CanRead(it.name, i - 1) {
        b' := ReadsOrphan(it, j + 1, c, rest, mnl);
      } else {
        if CanRead(it.name, Lowest(it)) { CanReadEnd(it.name, Lowest(it), i - 1); }
        SkipsOrphan(it, j + 1, c, rest, mnl);
        b' := c;
      }
    }
  }

  // An orphan is left open, or skipped.
  lemma PassesOrphan(it: Item, open: Option<Item>, b: Block, rest: seq<Entry>, mnl: int) returns (b': Block)
    requires it.Orphan? && Formed(it) && Stands(open, b)
    ensures Next(Records(it) + rest, b, mnl) == Next(rest, b', mnl) && Stands(OpenAfter(open, it), b')
  {
    hide Next, AllAllowed;
    RecordAt(it, 0);
    assert Records(it) + rest == [it.records[0]] + (it.records[1..] + rest);
    NextRecord(it.records[0], it.records[1..] + rest, b, mnl);
    var k := Total(it);
    if open.Some? {
      b' := b.(left := 0);
      SkipsOrphan(it, 1, b', rest, mnl);
    } else {
      ReadsFirst(it, b);
      var c := Start(it.records[0], b);
      if k <= 8 && CanRead(it.name, k) {
        b' := ReadsOrphan(it, 1, c, rest, mnl);
      } else {
        if k <= 8 && CanRead(it.name, Lowest(it)) { CanReadEnd(it.name, Lowest(it), k); }
        SkipsOrphan(it, 1, c, rest, mnl);
        b' := c;
      }
    }
  }

  // The listing from the middle of a directory on.
  ghost function ListFrom(es: seq<Entry>, b: Block, mnl: int): seq<Name> {
    var r := Next(es, b, mnl);
    if r.0.None? then [] else [r.0.value] + List(r.1, mnl)
  }

  lemma {:induction false} ListsFrom(items: seq<Item>, open: Option<Item>, b: Block, tail: seq<Entry>, mnl: int)
    requires forall i | 0 <= i < |items| :: Formed(items[i])
    requires Stands(open, b) && (tail == [] || tail[0][0] == 0)
    ensures ListFrom(Directory(items) + tail, b, mnl) == Listed(open, items, mnl)
    decreases |items|
  {
    hide Next, Formed, ListFrom, ListedName, OpenAfter, Stands, Records;
    var es := Directory(items) + tail;
    if items == [] {
      assert es == tail;
      EndsHere(tail, b, mnl);
    } else {
      var it, rest := items[0], Directory(items[1..]) + tail;
      assert es == Records(it) + rest;
      var b' := ListsItem(it, open, b, rest, mnl);
      ListsFrom(items[1..], OpenAfter(open, it), b', tail, mnl);
    }
  }

  lemma ListsItem(it: Item, open: Option<Item>, b: Block, rest: seq<Entry>, mnl: int) returns (b': Block)
    requires Formed(it) && Stands(open, b)
    ensures open.Some? ==> open.value.Orphan?
    ensures ListFrom(Records(it) + rest, b, mnl) == ListedName(open, it, mnl) + ListFrom(rest, b', mnl)
    ensures Stands(OpenAfter(open, it), b')
  {
    hide Next, Formed, ShortName, LongOrShort, ReadDownTo, LeavesOpen, Records;
    ListIs(rest, mnl);
    if it.Orphan? {
      b' := PassesOrphan(it, open, b, rest, mnl);
    } else if it.Long? {
      b' := NO_BLOCK;
      if open.None? { ReadsLong(it, b, rest, mnl); } else { OpenIs(open.value, b); SpoilsLong(it, b, rest, mnl); }
    } else {
      ListsOne(it, open, b, rest, mnl);
      b' := if ListedName(open, it, mnl) == [] then b.(left := 0) else NO_BLOCK;
    }
  }

  lemma EndsHere(tail: seq<Entry>, b: Block, mnl: int)
    requires tail == [] || tail[0][0] == 0
    ensures ListFrom(tail, b, mnl) == []
  {
  }

  lemma ListIs(es: seq<Entry>, mnl: int)
    ensures List(es, mnl) == ListFrom(es, NO_BLOCK, mnl)
  {
    hide Next;
  }

  lemma OpenIs(o: Item, b: Block)
    requires o.Orphan? && Formed(o) && Stands(Some(o), b)
    ensures b.left == Lowest(o) > 0
  {
  }

  // A record of its own: erased, a label, or a short one.
  lemma ListsOne(it: Item, open: Option<Item>, b: Block, rest: seq<Entry>, mnl: int)
    requires Formed(it) && (it.Dead? || it.Bare?) && Stands(open, b)
    ensures var names := ListedName(open, it, mnl);
      if names == [] then Next(Records(it) + rest, b, mnl) == Next(rest, b.(left := 0), mnl)
      else names == [names[0]] && Next(Records(it) + rest, b, mnl) == (Some(names[0]), rest)
  {
    NextRecord(it.e, rest, b, mnl);
    hide Next, LongOrShort;
    if open.Some? && b.left == 1 { BlockIsOver(open.value, b, it.e, mnl); }
  }

  // Repeated calls list exactly these names, in order; the listing stops at the end marker, or where the
  // records stop.  They are the names the directory should show exactly when no orphan spoils one.
  lemma ListsDirectory(items: seq<Item>, tail: seq<Entry>, mnl: int)
    requires forall i | 0 <= i < |items| :: Formed(items[i])
    requires tail == [] || tail[0][0] == 0
    ensures List(Directory(items) + tail, mnl) == Listed(None, items, mnl)
    ensures List(Directory(items) + tail, mnl) == Shown(items, mnl) <==> NoneSpoiled(None, items, mnl)
  {
    ListsFrom(items, None, NO_BLOCK, tail, mnl);
    ListIs(Directory(items) + tail, mnl);
    ShownIfNoneSpoiled(None, items, mnl);
    hide List, Listed, Shown, NoneSpoiled;
  }

  // ----- Two directories that are not listed as they should be -----

  // The last record of the two that a name of fourteen letters has.
  function RecordOfTwo(): Entry { seq(32, i => if i == 0 then 0x42 else if i == 11 then 0xf else if i == 1 then 0x61 else 0) }

  // AAAAAAAA.AAA
  function ShortOfAs(): Entry { seq(32, i => if i < 11 then 0x41 else 0) }

  function FourteenLetters(): seq<nat> { seq(14, _ => 0x61) }

  // The only record of the name b, for that short one.
  function RecordOfOne(): Entry {
    var sum := Checksum(ShortOfAs()[..11]);
    seq(32, i => if i == 0 then 0x41 else if i == 11 then 0xf else if i == 13 then sum else if i == 1 then 0x62 else 0)
  }

  function OrphanOfTwo(): Item { Orphan(FourteenLetters(), 0, [RecordOfTwo()]) }

  lemma OrphanOfTwoIs()
    ensures Formed(OrphanOfTwo()) && LeavesOpen(OrphanOfTwo()) && Lowest(OrphanOfTwo()) == 2
  {
    var name, r := FourteenLetters(), RecordOfTwo();
    forall c: nat | c < 13 ensures HasChar(r, 2, name, c) { }
    assert IsRecord(r, 2, 2, name, 0);
    assert name[13..] == [0x61];
  }

  lemma ShortOfAsIs()
    ensures IsShort(ShortOfAs()) && |ShortName(ShortOfAs())| > 0 && ShortName(ShortOfAs())[0] == 0x41
  {
  }

  // A file whose short record stands behind half a block is not listed at all.
  lemma FileNotListed()
    ensures Formed(OrphanOfTwo()) && Formed(Bare(ShortOfAs()))
    ensures Shown([OrphanOfTwo(), Bare(ShortOfAs())], 99) == [ShortName(ShortOfAs())]
    ensures List([RecordOfTwo(), ShortOfAs()], 99) == []
  {
    OrphanOfTwoIs();
    ShortOfAsIs();
    hide RecordOfTwo, ShortOfAs, FourteenLetters, ShortName, Formed, LeavesOpen, List;
    var o, f := OrphanOfTwo(), Bare(ShortOfAs());
    assert Formed(f) by { FormedShort(f.e); }
    var items := [o, f];
    ListsDirectory(items, [], 99);
    assert items[1..] == [f] && [f][1..] == [];
    assert Directory(items) + [] == [RecordOfTwo(), ShortOfAs()] by {
      assert Directory([f]) == [ShortOfAs()] + Directory([]);
    }
    assert Some(o) == OpenAfter(None, o);
  }

  lemma FormedShort(e: Entry)
    requires IsShort(e)
    ensures Formed(Bare(e))
  {
  }

  // A file whose complete block stands behind half a block is listed by its short name.
  lemma LongNameLost()
    ensures Formed(OrphanOfTwo()) && Formed(Long([0x62], Checksum(ShortOfAs()[..11]), [RecordOfOne()], ShortOfAs()))
    ensures Shown([OrphanOfTwo(), Long([0x62], Checksum(ShortOfAs()[..11]), [RecordOfOne()], ShortOfAs())], 99) == [[0x62]]
    ensures List([RecordOfTwo(), RecordOfOne(), ShortOfAs()], 99) == [ShortName(ShortOfAs())] != [[0x62]]
  {
    OrphanOfTwoIs();
    ShortOfAsIs();
    LongOfOneIs();
    hide RecordOfTwo, RecordOfOne, ShortOfAs, FourteenLetters, ShortName, Formed, LeavesOpen, List, LongOrShort, Checksum;
    var o, f := OrphanOfTwo(), Long([0x62], Checksum(ShortOfAs()[..11]), [RecordOfOne()], ShortOfAs());
    var items := [o, f];
    ListsDirectory(items, [], 99);
    assert items[1..] == [f] && [f][1..] == [];
    assert Directory(items) + [] == [RecordOfTwo(), RecordOfOne(), ShortOfAs()] by {
      assert Directory([f]) == [RecordOfOne(), ShortOfAs()] + Directory([]);
    }
    assert Some(o) == OpenAfter(None, o);
  }

  lemma LongOfOneIs()
    ensures var sum := Checksum(ShortOfAs()[..11]);
      && Formed(Long([0x62], sum, [RecordOfOne()], ShortOfAs()))
      && LongOrShort([0x62], sum, ShortOfAs(), 99) == [0x62]
  {
    ShortOfAsIs();
    hide Checksum, ShortName;
    var sum, r := Checksum(ShortOfAs()[..11]), RecordOfOne();
    forall c: nat | c < 13 ensures HasChar(r, 1, [0x62], c) { }
    assert IsRecord(r, 1, 1, [0x62], sum);
    assert AsName([0x62]) == [0x62];
  }
}
