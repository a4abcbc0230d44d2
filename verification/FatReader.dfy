/** The directory reader of chdk-src/core/chdk-dir.c: a cache of records filled by read(), and the
    long-name state machine over it. */
module FatReader {
  import opened FatNames
  import opened Options
  import opened Words

  const FNMAX: nat := 107
  const DCSIZE: nat := 16384

  // The field from..to of a record ends at its first space, n.
  lemma FieldUpTo(e: Entry, from: nat, n: nat, to: nat)
    requires from <= n <= to <= 32 && (forall i | from <= i < n :: e[i] != 0x20) && (n < to ==> e[n] == 0x20)
    ensures UntilSpace(e[from..to]) == e[from..n]
  {
    UntilSpaceFrom(e[from..to], n - from);
    assert e[from..to][..n - from] == e[from..n];
  }

  // A number of whole records.
  predicate Whole(n: int) { n % 32 == 0 }

  lemma WholeNumbers(a: int, b: int)
    requires Whole(a) && Whole(b)
    ensures Whole(a + b) && Whole(a - b) && Whole(a + 32) && (a < b ==> a + 32 <= b)
  {
    var x, y := a / 32, b / 32;
    assert a == 32 * x && b == 32 * y;
    Multiple(x + y);
    Multiple(x - y);
    Multiple(x + 1);
  }

  lemma Multiple(q: int)
    ensures Whole(32 * q)
  {
  }

  lemma OneRecord()
    ensures Whole(0) && Whole(32)
  {
  }

  // A byte stream cut into whole records.
  function Split(bytes: seq<byte>): (es: seq<Entry>)
    ensures |bytes| >= 32 ==> |es| > 0
  {
    if |bytes| < 32 then [] else [bytes[..32]] + Split(bytes[32..])
  }

  lemma {:induction false} UntilSpaceFrom(s: seq<byte>, n: nat)
    requires n <= |s| && forall i | 0 <= i < n :: s[i] != 0x20
    ensures UntilSpace(s) == s[..n] + UntilSpace(s[n..])
  {
    if n == 0 {
      assert s[0..] == s;
    } else {
      UntilSpaceFrom(s[1..], n - 1);
      assert s[1..][n - 1..] == s[n..] && s[..n] == [s[0]] + s[1..][..n - 1];
    }
  }

  lemma {:induction false} UntilZeroFrom(s: seq<byte>, n: nat)
    requires n <= |s| && forall i | 0 <= i < n :: s[i] != 0
    ensures UntilZero(s) == s[..n] + UntilZero(s[n..])
  {
    if n == 0 {
      assert s[0..] == s;
    } else {
      UntilZeroFrom(s[1..], n - 1);
      assert s[1..][n - 1..] == s[n..] && s[..n] == [s[0]] + s[1..][..n - 1];
    }
  }

  lemma NothingAhead(file: seq<byte>)
    ensures Split(file[|file|..]) == []
  {
  }

  // The cache holds the rc bytes of the file in front of pos.
  ghost predicate Caches(cache: seq<byte>, rc: int, file: seq<byte>, pos: nat) {
    && 32 <= rc <= |cache| && rc <= pos <= |file| && Whole(rc)
    && cache[..rc] == file[pos - rc..pos]
  }

  // Record c of the cache is the record at the same place of the file.
  lemma CachedRecord(cache: seq<byte>, rc: int, file: seq<byte>, pos: nat, c: nat)
    requires Caches(cache, rc, file, pos) && Whole(c) && c < rc
    ensures c + 32 <= rc <= |cache| && rc <= pos <= |file| && Whole(c + 32)
    ensures Split(file[pos - rc + c..]) == [cache[c..c + 32]] + Split(file[pos - rc + c + 32..])
  {
    WholeNumbers(c, rc);
    var from := pos - rc;
    var rest := file[from + c..];
    forall i | 0 <= i < 32 ensures rest[i] == cache[c + i] {
      assert cache[..rc][c + i] == file[from..from + rc][c + i];
    }
    assert rest[..32] == cache[c..c + 32];
    assert rest[32..] == file[from + c + 32..];
  }

  lemma FieldNext(e: seq<byte>, from: nat, n: nat)
    requires from <= n < |e|
    ensures e[from..n + 1] == e[from..n] + [e[n]]
  {
  }

  // The buffer is filled backwards from its last place but one.
  function NameIn(buf: seq<byte>, lfnpos: nat): Name
    requires |buf| == FNMAX + 1 && 1 <= lfnpos <= FNMAX + 1
  {
    buf[FNMAX + 1 - lfnpos..FNMAX]
  }

  lemma PutBefore(buf: seq<byte>, lfnpos: nat, c: byte)
    requires |buf| == FNMAX + 1 && 1 <= lfnpos <= FNMAX
    ensures NameIn(buf[FNMAX - lfnpos := c], lfnpos + 1) == [c] + NameIn(buf, lfnpos)
  {
  }

  ghost predicate NonZero(s: Name) { forall i | 0 <= i < |s| :: s[i] != 0 }

  lemma {:induction false} PrependNonZero(e: Entry, n: nat, name: Name)
    requires n <= 13 && NonZero(name)
    ensures Prepend(e, n, name).Some? ==> NonZero(Prepend(e, n, name).value)
    decreases 13 - n
  {
    if n < 13 {
      PrependNonZero(e, n + 1, name);
      if !IsPad(Unit(e, n)) && IsAllowed(Unit(e, n)) { PrependNonZero(e, n + 1, [Unit(e, n)] + name); }
    }
  }

  // A name in the buffer, copied out up to the terminating zero.
  lemma NameCopied(buf: seq<byte>, lfnpos: nat)
    requires |buf| == FNMAX + 1 && 1 <= lfnpos <= FNMAX + 1 && buf[FNMAX] == 0 && NonZero(NameIn(buf, lfnpos))
    ensures UntilZero(buf[FNMAX + 1 - lfnpos..]) == NameIn(buf, lfnpos)
  {
    var s := buf[FNMAX + 1 - lfnpos..];
    assert s[..lfnpos - 1] == NameIn(buf, lfnpos);
    forall i | 0 <= i < lfnpos - 1 ensures s[i] != 0 {
      assert NameIn(buf, lfnpos)[i] == s[i];
    }
    UntilZeroFrom(s, lfnpos - 1);
  }

  // One step of the parser, by the kind of the record e in front.
  lemma EndStep(e: Entry, rest: seq<Entry>, b: Block, mnl: int)
    requires e[0] == 0
    ensures Next([e] + rest, b, mnl) == (None, rest)
  {
  }

  lemma SkipStep(e: Entry, rest: seq<Entry>, b: Block, mnl: int)
    requires e[0] != 0 && IsSkipped(e)
    ensures Next([e] + rest, b, mnl) == Next(rest, b.(left := 0), mnl)
  {
  }

  lemma LongStep(e: Entry, rest: seq<Entry>, b: Block, mnl: int)
    requires e[0] != 0 && !IsSkipped(e) && e[11] == ATTR_LFN
    ensures Next([e] + rest, b, mnl) == Next(rest, if b.left > 0 then Continue(e, b) else Start(e, b), mnl)
  {
  }

  lemma ShortStep(e: Entry, rest: seq<Entry>, b: Block, mnl: int)
    requires e[0] != 0 && !IsSkipped(e) && e[11] != ATTR_LFN
    ensures var next := Next([e] + rest, b, mnl);
      if b.left == 0 then next == (Some(ShortName(e)), rest)
      else if b.left > 1 then next == Next(rest, b.(left := 0), mnl)
      else if Checksum(e[..11]) == b.sum && |b.name| <= mnl then next == (Some(b.name), rest)
      else next == Next([e] + rest, b.(left := 0), mnl)
  {
  }

  // ----- The file name buffer -----

  // The character itself when a name may have it, 0 for none, and -1 otherwise.
  method CheckFnChar(i: int) returns (r: int)
    ensures r == if i == 0 then 0 else if IsAllowed(i) then i else -1
  {
    if i < 0 || i >= 0x80 { return -1; }
    if ('0' as int <= i && i <= '9' as int) || ('@' as int <= i && i <= 'Z' as int) || ('a' as int <= i && i <= 'z' as int)
       || i == '.' as int || i == '-' as int || i == '_' as int || i == '(' as int || i == ')' as int || i == '$' as int
       || i == '&' as int {
      return i;
    }
    if i != 0 { return -1; }
    return 0;
  }

  lemma PaddingIs(u: int)
    requires u == 0xffff || u == 0
    ensures IsPad(u)
  {
  }

  lemma UnpaddedIs(u: int)
    requires u != 0xffff && u != 0
    ensures !IsPad(u) && (IsAllowed(u) ==> u > 0)
  {
  }

  // The checksum of a short record.
  method ShortChecksum(e: Entry) returns (cs: byte)
    ensures cs == Checksum(e[..11])
  {
    cs := 0;
    for n := 0 to 11
      invariant cs == Checksum(e[..n])
    {
      ChecksumNext(e, n);
      cs := (cs % 2 * 0x80 + cs / 2 + e[n]) % 0x100;
    }
  }

  lemma ChecksumNext(e: Entry, n: nat)
    requires n < 11
    ensures Checksum(e[..0]) == 0
    ensures var c := Checksum(e[..n]); Checksum(e[..n + 1]) == (c % 2 * 0x80 + c / 2 + e[n]) % 0x100
  {
    assert e[..n + 1][..n] == e[..n];
  }

  // strcpy from the buffer.
  method CopyString(fn: array<byte>, start: nat, ghost end: nat) returns (s: Name)
    requires start <= end < fn.Length && fn[end] == 0
    ensures s == UntilZero(fn[start..])
  {
    var i := start;
    s := [];
    while fn[i] != 0
      invariant start <= i <= end
      decreases end - i
      invariant s == fn[start..i] && forall j | start <= j < i :: fn[j] != 0
    {
      s := s + [fn[i]];
      i := i + 1;
    }
    UntilZeroFrom(fn[start..], i - start);
  }

  // Appends the record's bytes from..to to the buffer, up to a space.
  method CopyField(fn: array<byte>, e: Entry, m: nat, from: nat, to: nat) returns (m': nat)
    requires from <= to <= 32 && m + (to - from) <= fn.Length
    modifies fn
    ensures m <= m' <= m + (to - from) && fn[..m'] == old(fn[..m]) + UntilSpace(e[from..to])
  {
    hide *;
    var n := from;
    m' := m;
    assert old(fn[..m]) + e[from..from] == fn[..m];
    while n < to && e[n] != 0x20
      invariant from <= n <= to && m' == m + n - from
      invariant fn[..m'] == old(fn[..m]) + e[from..n] && forall i | from <= i < n :: e[i] != 0x20
    {
      ghost var was := fn[..m'];
      FieldNext(e, from, n);
      fn[m'] := e[n];
      assert fn[..m' + 1] == was + [e[n]];
      m' := m' + 1;
      n := n + 1;
    }
    FieldUpTo(e, from, n, to);
  }

  method BuildShort(fn: array<byte>, e: Entry) returns (s: Name)
    requires fn.Length == FNMAX + 1
    modifies fn
    ensures s == ShortName(e)
  {
    hide UntilSpace, UntilZero;
    fn[0] := e[0];
    assert fn[..1] == e[..1];
    var m := CopyField(fn, e, 1, 1, 8);
    ghost var base := e[..1] + UntilSpace(e[1..8]);
    if e[8] != 0x20 {
      fn[m] := '.' as int;
      m := m + 1;
    }
    ghost var dotted := base + (if e[8] != 0x20 then ['.' as int] else []);
    assert fn[..m] == dotted;
    m := CopyField(fn, e, m, 8, 11);
    ghost var full := dotted + UntilSpace(e[8..11]);
    fn[m] := 0;
    assert fn[..m] == full;
    s := CopyString(fn, 0, m);
    CutAtZero(fn[..], m);
    assert fn[..][..m] == fn[..m] && fn[0..] == fn[..];
  }

  method ClearName(fn: array<byte>)
    requires fn.Length == FNMAX + 1
    modifies fn
    ensures forall i | 0 <= i <= FNMAX :: fn[i] == 0
  {
    for k := 0 to FNMAX + 1
      invariant forall i | 0 <= i < k :: fn[i] == 0
    {
      fn[k] := 0;
    }
  }

  class Reader {
    const file: seq<byte>        // the directory's bytes: whole records
    const mnl: int               // maximum name length
    var pos: nat                 // where the file descriptor is
    const dc: array<byte>        // directory cache
    var cp: int                  // next record in the cache, -1 at first
    var rc: int                  // bytes in the cache
    var fe: nat                  // the record being looked at, in the cache
    var islfn: nat
    var lfnpos: nat
    const fn: array<byte>        // file name buffer

    ghost predicate Valid()
      reads this`pos, this`cp, this`rc, dc
    {
      && dc.Length == DCSIZE && fn.Length == FNMAX + 1 && dc != fn
      && Whole(|file|) && Whole(pos) && pos <= |file|
      && (cp == -1 || (0 <= cp <= rc <= pos && Whole(cp) && Caches(dc[..], rc, file, pos)))
    }

    // How far into the file the next record is.
    ghost function Offset(): int
      reads this`pos, this`cp, this`rc
    {
      if cp == -1 then pos else pos - rc + cp
    }

    // The records that are still to be read.
    ghost function Ahead(): seq<Entry>
      reads this`pos, this`cp, this`rc, dc
      requires Valid()
    {
      Split(file[Offset()..])
    }

    // The record just read is still in the cache, in front of cp.
    ghost predicate AtEntry()
      reads this`pos, this`cp, this`rc, this`fe, dc
    {
      Valid() && cp >= 32 && fe == cp - 32
    }

    ghost function Current(): Entry
      reads this`pos, this`cp, this`rc, this`fe, dc
      requires AtEntry()
    {
      dc[fe..fe + 32]
    }

    constructor (file: seq<byte>, mnl: int)
      requires Whole(|file|)
      ensures Valid() && this.file == file && this.mnl == mnl && Ahead() == Split(file) && fresh(dc) && fresh(fn)
    {
      this.file, this.mnl := file, mnl;
      dc, fn := new byte[DCSIZE], new byte[FNMAX + 1];
      pos, cp, rc, fe, islfn, lfnpos := 0, -1, 0, 0, 0, 0;
    }

    // read() gives as many whole records as it likes, and nothing only at the end of the file.
    method Read() returns (k: nat)
      requires Valid() && Offset() == pos
      modifies this`pos, dc
      ensures k == 0 <==> old(pos) == |file|
      ensures k == 0 ==> pos == old(pos) && dc[..] == old(dc[..])
      ensures k > 0 ==> k >= 32 && pos == old(pos) + k && Whole(pos) && Caches(dc[..], k, file, pos)
    {
      if pos == |file| { return 0; }
      WholeNumbers(pos, |file|);
      OneRecord();
      k :| 32 <= k <= DCSIZE && Whole(k) && pos + k <= |file|;
      for i := 0 to k
        invariant pos == old(pos) && dc[..i] == file[pos..pos + i]
      {
        dc[i] := file[pos + i];
      }
      assert dc[..][..k] == dc[..k];
      WholeNumbers(pos, k);
      pos := pos + k;
    }

    method ReadNextEntry() returns (rd: nat)
      requires Valid()
      modifies this`pos, this`cp, this`rc, this`fe, dc
      ensures Valid()
      ensures rd < 32 <==> old(Ahead()) == []
      ensures rd < 32 ==> Ahead() == []
      ensures rd >= 32 ==> AtEntry() && Current() == old(Ahead())[0] && Ahead() == old(Ahead())[1..]
    {
      hide Split, Whole, Caches;
      if cp == -1 || cp >= rc {
        var k := Read();
        NothingAhead(file);
        if k < 32 { return k; }
        rc := k;
        fe := 0;
        cp := 32;
        OneRecord();
        CachedRecord(dc[..], rc, file, pos, 0);
        rd := 32;
      } else {
        CachedRecord(dc[..], rc, file, pos, cp);
        var canread := if rc - cp < 32 then rc - cp else 32;
        fe := cp;
        cp := cp + canread;
        rd := canread;
      }
    }

    method RewindEntry()
      requires AtEntry()
      modifies this`cp
      ensures Valid() && Ahead() == [old(Current())] + old(Ahead())
    {
      cp := cp - 32;
      WholeNumbers(cp, cp);
      CachedRecord(dc[..], rc, file, pos, fe);
    }

    ghost function NameSoFar(): Name
      reads this`lfnpos, fn
      requires fn.Length == FNMAX + 1 && 1 <= lfnpos <= FNMAX + 1
    {
      NameIn(fn[..], lfnpos)
    }

    method ReadLfnEntry()
      requires AtEntry() && 1 <= lfnpos <= 92 && fn[FNMAX] == 0
      modifies this`islfn, this`lfnpos, fn
      ensures fn[FNMAX] == 0 && old(lfnpos) <= lfnpos <= old(lfnpos) + 13
      ensures match Prepend(Current(), 0, old(NameSoFar()))
              case None => islfn == 0
              case Some(name) => islfn == old(islfn) && NameSoFar() == name
    {
      var e: Entry := dc[fe..fe + 32];
      ghost var sought := Prepend(e, 0, NameSoFar());
      assert fn.Length == FNMAX + 1;
      hide *;
      for n := 0 to 13
        invariant fn[FNMAX] == 0 && islfn == old(islfn)
        invariant old(lfnpos) <= lfnpos <= old(lfnpos) + n
        invariant Prepend(e, n, NameSoFar()) == sought
      {
        var uch := Unit(e, n);
        PrependNext(e, n, NameSoFar());
        if uch != 0xffff && uch != 0 {
          UnpaddedIs(uch);
          var ok := CheckFnChar(uch);
          if ok < 0 {
            islfn := 0;
            break;
          }
          PutName(uch);
        } else {
          PaddingIs(uch);
        }
      }
      PrependNext(e, 13, NameSoFar());
    }

    method PutName(uch: nat)
      requires fn.Length == FNMAX + 1 && 1 <= lfnpos < FNMAX && 0 < uch < 0x80
      modifies this`lfnpos, fn
      ensures lfnpos == old(lfnpos) + 1 && fn[FNMAX] == old(fn[FNMAX]) && NameSoFar() == [uch] + old(NameSoFar())
    {
      PutBefore(fn[..], lfnpos, uch);
      ghost var buf := fn[..][FNMAX - lfnpos := uch];
      fn[FNMAX - lfnpos] := uch % 0x100;
      lfnpos := lfnpos + 1;
      assert fn[..] == buf;
    }

    method ReadShort() returns (s: Name)
      requires AtEntry()
      modifies fn
      ensures s == ShortName(Current())
    {
      assert fn.Length == FNMAX + 1 && dc != fn;
      hide *;
      var e := CurrentRecord();
      s := BuildShort(fn, e);
    }

    // The reader's fields stand for the block b of the parser.
    ghost predicate Reading(b: Block, lfnchsum: byte)
      reads this`islfn, this`lfnpos, fn
    {
      && fn.Length == FNMAX + 1 && b.left == islfn <= 8
      && (islfn > 0 ==>
            && 1 <= lfnpos <= 13 * (9 - islfn) + 1 && fn[FNMAX] == 0
            && b.name == NameSoFar() && b.sum == lfnchsum && NonZero(b.name))
    }

    // A long-name record inside a block.
    method ContinueBlock(ghost b: Block, lfnchsum: byte) returns (ghost b': Block)
      requires AtEntry() && Reading(b, lfnchsum) && islfn > 0 && Current()[0] != 0
      modifies this`islfn, this`lfnpos, fn
      ensures b' == Continue(Current(), b) && Reading(b', lfnchsum)
    {
      var e := CurrentRecord();
      assert fn.Length == FNMAX + 1;
      hide Continue, Prepend, NameIn, HasStartFlag, Unit, NonZero, Valid;
      ContinueStep(e, b);
      b' := Continue(e, b);
      if e[13] != lfnchsum || HasStartFlag(e) || e[0] != islfn - 1 {
        islfn := 0;
        return;
      }
      PrependNonZero(e, 0, b.name);
      islfn := e[0];
      ReadLfnEntry();
      NameLength(fn[..], lfnpos);
      if lfnpos > 99 + 1 { islfn := 0; }
    }

    // A long-name record outside a block.
    method StartBlock(ghost b: Block, lfnchsum: byte) returns (ghost b': Block, sum: byte)
      requires AtEntry() && Reading(b, lfnchsum) && islfn == 0
      modifies this`islfn, this`lfnpos, fn
      ensures b' == Start(Current(), b) && Reading(b', sum)
    {
      var e := CurrentRecord();
      assert fn.Length == FNMAX + 1;
      hide Start, Prepend, NameIn, HasStartFlag, Unit, NonZero, Valid;
      StartStep(e, b);
      b' := Start(e, b);
      sum := lfnchsum;
      if HasStartFlag(e) && e[0] - 0x40 <= 8 {
        islfn := e[0] - 0x40;
        ClearName(fn);
        lfnpos := 1;
        NameLength(fn[..], 1);
        assert NameSoFar() == [];
        PrependNonZero(e, 0, []);
        ReadLfnEntry();
        sum := e[13];
      }
    }

    // A record that is not a long-name one: a name, or the end of a block that came to nothing.
    method ShortRecord(ghost es: seq<Entry>, ghost b: Block, lfnchsum: byte)
      returns (done: bool, r: Option<Name>, ghost b': Block)
      requires AtEntry() && Reading(b, lfnchsum)
      requires es == [Current()] + Ahead() && es[0][0] != 0 && !IsSkipped(es[0]) && es[0][11] != ATTR_LFN
      modifies this`islfn, this`cp, fn
      ensures Valid()
      ensures done ==> (r, Ahead()) == Next(es, b, mnl)
      ensures !done ==> Next(Ahead(), b', mnl) == Next(es, b, mnl) && Reading(b', lfnchsum)
      ensures !done ==> islfn == 0 < old(islfn) && |Ahead()| <= |es|
    {
      ghost var rest := Ahead();
      ShortStep(Current(), rest, b, mnl);
      LeftIs(b, lfnchsum);
      assert fn != dc && fn.Length == FNMAX + 1 && Valid();
      hide *;
      r, b' := None, b.(left := 0);
      if islfn == 0 {
        var s := ReadShort();
        return true, Some(s), b';
      }
      if islfn == 1 {
        done, r := FinishBlock(b, lfnchsum);
        if done { return; }
      }
      islfn := 0;
      NotReading(b', lfnchsum);
      done := false;
    }

    // The short record behind a complete block: the long name if it belongs to it and is not too long;
    // otherwise the record is to be read again by itself.
    method FinishBlock(ghost b: Block, lfnchsum: byte) returns (ok: bool, r: Option<Name>)
      requires AtEntry() && Reading(b, lfnchsum) && islfn == 1
      modifies this`cp
      ensures Valid() && ok == (Checksum(old(Current())[..11]) == b.sum && |b.name| <= mnl)
      ensures ok ==> r == Some(b.name) && Ahead() == old(Ahead())
      ensures !ok ==> Ahead() == [old(Current())] + old(Ahead())
    {
      NameWhole(b, lfnchsum);
      var e := CurrentRecord();
      assert fn.Length == FNMAX + 1 && Valid();
      hide *;
      var cs := ShortChecksum(e);
      ok := cs == lfnchsum && lfnpos - 1 <= mnl;
      r := None;
      if ok {
        var s := CopyString(fn, FNMAX - lfnpos + 1, FNMAX);
        r := Some(s);
      } else {
        RewindEntry();
      }
    }

    // One turn of the loop in CHDKReadDir.
    method NextRecord(ghost b: Block, lfnchsum: byte)
      returns (done: bool, r: Option<Name>, ghost b': Block, sum: byte)
      requires Valid() && Reading(b, lfnchsum)
      modifies this, dc, fn
      ensures Valid()
      ensures done ==> (r, Ahead()) == Next(old(Ahead()), b, mnl)
      ensures !done ==> Next(Ahead(), b', mnl) == Next(old(Ahead()), b, mnl) && Reading(b', sum)
      ensures !done ==> |Ahead()| < |old(Ahead())| || (|Ahead()| == |old(Ahead())| && islfn < old(islfn))
    {
      ghost var es := Ahead();
      LeftIs(b, lfnchsum);
      assert fn != dc && fn.Length == FNMAX + 1;
      hide *;
      done, r, b', sum := true, None, b, lfnchsum;
      var rd := ReadNextEntry();
      if rd < 32 {
        NothingLeft(b, mnl);
        return;
      }
      var e := CurrentRecord();
      ghost var rest := Ahead();
      assert es == [e] + rest;
      if e[0] == 0 {
        EndStep(e, rest, b, mnl);
        return;
      }
      done, r, b', sum := HandleRecord(es, b, lfnchsum);
    }

    // A record that is there, by its kind.
    method HandleRecord(ghost es: seq<Entry>, ghost b: Block, lfnchsum: byte)
      returns (done: bool, r: Option<Name>, ghost b': Block, sum: byte)
      requires AtEntry() && Reading(b, lfnchsum) && es == [Current()] + Ahead() && es[0][0] != 0
      modifies this`islfn, this`lfnpos, this`cp, fn
      ensures Valid()
      ensures done ==> (r, Ahead()) == Next(es, b, mnl)
      ensures !done ==> Next(Ahead(), b', mnl) == Next(es, b, mnl) && Reading(b', sum)
      ensures !done ==> |Ahead()| < |es| || (|Ahead()| == |es| && islfn < old(islfn))
    {
      LeftIs(b, lfnchsum);
      assert fn != dc && fn.Length == FNMAX + 1 && Valid();
      hide *;
      done, r, b', sum := false, None, b, lfnchsum;
      var e := CurrentRecord();
      ghost var rest := Ahead();
      if IsSkipped(e) {
        SkipStep(e, rest, b, mnl);
        b' := b.(left := 0);
        islfn := 0;
        NotReading(b', lfnchsum);
      } else if e[11] != ATTR_LFN {
        done, r, b' := ShortRecord(es, b, lfnchsum);
      } else {
        b', sum := LongRecord(es, b, lfnchsum);
      }
    }

    // A long-name record.
    method LongRecord(ghost es: seq<Entry>, ghost b: Block, lfnchsum: byte) returns (ghost b': Block, sum: byte)
      requires AtEntry() && Reading(b, lfnchsum) && es == [Current()] + Ahead()
      requires es[0][0] != 0 && !IsSkipped(es[0]) && es[0][11] == ATTR_LFN
      modifies this`islfn, this`lfnpos, fn
      ensures Valid() && Ahead() == es[1..]
      ensures Next(es[1..], b', mnl) == Next(es, b, mnl) && Reading(b', sum)
    {
      LeftIs(b, lfnchsum);
      assert fn != dc && Valid();
      hide *;
      LongStep(es[0], es[1..], b, mnl);
      assert es == [es[0]] + es[1..];
      sum := lfnchsum;
      if islfn > 0 {
        b' := ContinueBlock(b, lfnchsum);
      } else {
        b', sum := StartBlock(b, lfnchsum);
      }
    }

    // CHDKReadDir: the next name, or nothing at the end of the directory.
    method ReadDir() returns (r: Option<Name>)
      requires Valid()
      modifies this, dc, fn
      ensures Valid() && (r, Ahead()) == Next(old(Ahead()), NO_BLOCK, mnl)
    {
      var lfnchsum: byte := 0;
      islfn, lfnpos := 0, 0;
      ghost var goal, b := Next(Ahead(), NO_BLOCK, mnl), NO_BLOCK;
      assert Reading(b, lfnchsum);
      hide *;
      while true
        invariant Valid() && Next(Ahead(), b, mnl) == goal && Reading(b, lfnchsum)
        decreases |Ahead()|, islfn
      {
        var done;
        done, r, b, lfnchsum := NextRecord(b, lfnchsum);
        if done { return; }
      }
    }

    // Calls until nothing is returned.
    method ListAll() returns (names: seq<Name>)
      requires Valid()
      modifies this, dc, fn
      ensures names == List(old(Ahead()), mnl)
    {
      hide *;
      names := [];
      ghost var before, all := Ahead(), List(Ahead(), mnl);
      var name := ReadDir();
      while name.Some?
        invariant Valid() && (name, Ahead()) == Next(before, NO_BLOCK, mnl) && names + List(before, mnl) == all
        decreases |before|
      {
        ListStep(before, mnl);
        names := names + [name.value];
        before := Ahead();
        name := ReadDir();
      }
      ListStep(before, mnl);
    }

    lemma LeftIs(b: Block, lfnchsum: byte)
      requires Reading(b, lfnchsum)
      ensures b.left == islfn
    {
    }

    lemma NotReading(b: Block, lfnchsum: byte)
      requires b.left == islfn == 0 && fn.Length == FNMAX + 1
      ensures Reading(b, lfnchsum)
    {
    }

    // What strcpy will take of the buffer is the name.
    lemma NameWhole(b: Block, lfnchsum: byte)
      requires Reading(b, lfnchsum) && islfn > 0
      ensures 1 <= lfnpos <= FNMAX && fn[FNMAX] == 0 && |b.name| == lfnpos - 1 && b.sum == lfnchsum
      ensures UntilZero(fn[FNMAX + 1 - lfnpos..]) == b.name
    {
      NameLength(fn[..], lfnpos);
      NameCopied(fn[..], lfnpos);
      assert fn[..][FNMAX + 1 - lfnpos..] == fn[FNMAX + 1 - lfnpos..];
    }

    method CurrentRecord() returns (e: Entry)
      requires AtEntry()
      ensures e == Current()
    {
      e := dc[fe..fe + 32];
    }
  }

  // Opening a directory and calling CHDKReadDir until it returns nothing lists these names, in order,
  // however read() fills the cache: the ones the directory should show exactly if no orphan spoils one.
  method ListDirectory(file: seq<byte>, mnl: int, ghost items: seq<Item>, ghost tail: seq<Entry>)
    returns (names: seq<Name>)
    requires Whole(|file|) && Split(file) == Directory(items) + tail
    requires forall i | 0 <= i < |items| :: Formed(items[i])
    requires tail == [] || tail[0][0] == 0
    ensures names == Listed(None, items, mnl)
    ensures names == Shown(items, mnl) <==> NoneSpoiled(None, items, mnl)
  {
    hide *;
    ListsDirectory(items, tail, mnl);
    var reader := new Reader(file, mnl);
    names := reader.ListAll();
  }

  lemma ListStep(es: seq<Entry>, mnl: int)
    ensures var r := Next(es, NO_BLOCK, mnl);
      && List(es, mnl) == (if r.0.None? then [] else [r.0.value] + List(r.1, mnl))
      && (r.0.Some? ==> |r.1| < |es|)
  {
  }

  lemma NothingLeft(b: Block, mnl: int)
    ensures Next([], b, mnl) == (None, [])
  {
  }

  lemma NameLength(buf: seq<byte>, lfnpos: nat)
    requires |buf| == FNMAX + 1 && 1 <= lfnpos <= FNMAX + 1
    ensures |NameIn(buf, lfnpos)| == lfnpos - 1 && (lfnpos == 1 ==> NameIn(buf, lfnpos) == []) && NonZero([])
  {
  }

  lemma {:induction false} CutAtZero(s: seq<byte>, m: nat)
    requires m < |s| && s[m] == 0
    ensures UntilZero(s) == UntilZero(s[..m]) && s[0..] == s
  {
    if m > 0 && s[0] != 0 {
      CutAtZero(s[1..], m - 1);
      assert s[1..][..m - 1] == s[..m][1..];
    }
  }
}