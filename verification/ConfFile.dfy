/** Configuration files: what config_save writes, config_restore reads back, into the same table of settings
    or into another one (chdk-src/core/conf.c:881-956, 992-1043). */
module ConfFile {
  import opened Words

  const CONF_MAGICK_VALUE: nat := 0x33204741
  const CONF_STR_LEN: nat := 100

  // A line of the table, but for its variable.
  datatype Info = Info(id: nat, size: byte)

  // The table ends at the first id 0, and ids are 16 bits wide.
  predicate IsTable(ci: seq<Info>) { forall i | 0 <= i < |ci| :: 0 < ci[i].id < 0x10000 }

  // The variables the lines of a table point to, as bytes.
  predicate Fits(ci: seq<Info>, vars: seq<seq<byte>>) {
    |vars| == |ci| && forall i | 0 <= i < |ci| :: |vars[i]| == ci[i].size
  }

  // ----- The file -----

  // Up to the first NUL, as strlen counts.
  function StrLen(v: seq<byte>): (n: nat)
    ensures n <= |v|
  {
    if v == [] || v[0] == 0 then 0 else 1 + StrLen(v[1..])
  }

  // What is saved of a variable: of one that has the size of a string, nothing behind the first NUL.
  function Saved(v: seq<byte>): (r: seq<byte>)
    ensures |r| == |v|
  {
    if |v| == CONF_STR_LEN then v[..StrLen(v)] + Zeros(|v| - StrLen(v)) else v
  }

  function Zeros(n: nat): (r: seq<byte>)
    ensures |r| == n
  {
    seq(n, i => 0)
  }

  function Header(it: Info): (r: seq<byte>)
    ensures |r| == 4
  {
    Put16(it.id) + Put16(it.size)
  }

  function Item(it: Info, v: seq<byte>): seq<byte> { Header(it) + Saved(v) }

  function Items(ci: seq<Info>, vars: seq<seq<byte>>): seq<byte>
    requires |vars| == |ci|
  {
    if ci == [] then [] else Item(ci[0], vars[0]) + Items(ci[1..], vars[1..])
  }

  function File(ci: seq<Info>, vars: seq<seq<byte>>, base: nat): seq<byte>
    requires |vars| == |ci|
  {
    Put32(CONF_MAGICK_VALUE) + Put32(base) + Items(ci, vars)
  }

  // Byte by byte: the mark "AG 3" and the value behind it, and of every item its id, its size and its variable.
  lemma FileHead(ci: seq<Info>, vars: seq<seq<byte>>, base: nat)
    requires |vars| == |ci| && base < 0x1_0000_0000
    ensures var p := File(ci, vars, base);
      && |p| >= 8 && p[..4] == ['A' as int, 'G' as int, ' ' as int, '3' as int] && p[8..] == Items(ci, vars)
      && base == p[4] + p[5] as int * 0x100 + p[6] as int * 0x10000 + p[7] as int * 0x1000000
  {
    hide Items;
    Word32(base, []);
    assert Put32(CONF_MAGICK_VALUE) == [0x41, 0x47, 0x20, 0x33];
  }

  lemma ItemHead(it: Info, v: seq<byte>)
    requires it.id < 0x10000
    ensures var p := Item(it, v);
      |p| >= 4 && it.id == p[0] + p[1] as int * 0x100 && p[2] == it.size && p[3] == 0 && p[4..] == Saved(v)
  {
    hide Saved;
    Word16(it.id, []);
    Word16(it.size, []);
  }

  // ----- Reading it back -----

  // The first line with this id and this size.
  function Line(ci: seq<Info>, id: nat, size: nat): (k: nat)
    ensures k <= |ci|
    ensures forall j | 0 <= j < k :: ci[j].id != id || ci[j].size != size
    ensures k < |ci| ==> ci[k].id == id && ci[k].size == size
  {
    if ci == [] || (ci[0].id == id && ci[0].size == size) then 0
    else
      var k := Line(ci[1..], id, size);
      assert forall j | 1 <= j < |ci| :: ci[j] == ci[1..][j - 1];
      1 + k
  }

  // The variables after an item has been restored: the one of that line, if there is one.
  function Put(ci: seq<Info>, vars: seq<seq<byte>>, id: nat, v: seq<byte>): (r: seq<seq<byte>>)
    requires |vars| == |ci|
    ensures |r| == |ci|
  {
    var k := Line(ci, id, |v|);
    if k < |ci| then vars[k := v] else vars
  }

  // The variables after the items in the bytes p have been restored; an item that is cut short ends it.
  function Restored(ci: seq<Info>, vars: seq<seq<byte>>, p: seq<byte>): (r: seq<seq<byte>>)
    requires |vars| == |ci|
    ensures |r| == |ci|
    decreases |p|
  {
    if |p| < 4 then vars
    else
      var id, size, rest := Get16(p), Get16(p[2..]), p[4..];
      if |rest| < size then vars
      else Restored(ci, Put(ci, vars, id, rest[..size]), rest[size..])
  }

  // The variables after a whole file has been read; a file that does not begin with the mark is not.
  function Read(ci: seq<Info>, vars: seq<seq<byte>>, file: seq<byte>): (r: seq<seq<byte>>)
    requires |vars| == |ci|
    ensures |r| == |ci|
  {
    if |file| >= 4 && Get32(file) == CONF_MAGICK_VALUE && |file| >= 8 then Restored(ci, vars, file[8..]) else vars
  }

  // ----- One table's file read into another -----

  // The variables after every item of table a has been restored in turn.
  function PutAll(b: seq<Info>, vars: seq<seq<byte>>, a: seq<Info>, va: seq<seq<byte>>): (r: seq<seq<byte>>)
    requires |vars| == |b| && |va| == |a|
    ensures |r| == |b|
    decreases |a|
  {
    if a == [] then vars else PutAll(b, Put(b, vars, a[0].id, Saved(va[0])), a[1..], va[1..])
  }

  // Each item is read as it was written, whatever the reader makes of it.
  lemma ReadItem(b: seq<Info>, vars: seq<seq<byte>>, it: Info, v: seq<byte>, rest: seq<byte>)
    requires |vars| == |b| && it.id < 0x10000 && |v| == it.size
    ensures Restored(b, vars, Item(it, v) + rest) == Restored(b, Put(b, vars, it.id, Saved(v)), rest)
  {
    hide *;
    var w, p := Saved(v), Item(it, v) + rest;
    ItemParts(it, v, w + rest);
    assert p == Header(it) + (w + rest);
    RestoredIs(b, vars, p);
    assert (w + rest)[..|w|] == w && (w + rest)[|w|..] == rest;
  }

  lemma ItemParts(it: Info, v: seq<byte>, q: seq<byte>)
    requires it.id < 0x10000
    ensures var p := Header(it) + q;
      |p| >= 4 && Get16(p) == it.id && Get16(p[2..]) == it.size && p[4..] == q
    ensures Item(it, v) == Header(it) + Saved(v)
  {
    var p := Header(it) + q;
    Word16(it.id, Put16(it.size) + q);
    Word16(it.size, q);
    assert p == Put16(it.id) + (Put16(it.size) + q) && p[2..] == Put16(it.size) + q;
    hide Get16, Put16, Saved;
  }

  lemma RestoredIs(b: seq<Info>, vars: seq<seq<byte>>, p: seq<byte>)
    requires |vars| == |b|
    ensures Restored(b, vars, p) ==
      if |p| < 4 then vars
      else
        var id, size, rest := Get16(p), Get16(p[2..]), p[4..];
        if |rest| < size then vars else Restored(b, Put(b, vars, id, rest[..size]), rest[size..])
  {
    hide Get16, Put;
  }

  lemma {:induction false} ReadItems(b: seq<Info>, vars: seq<seq<byte>>, a: seq<Info>, va: seq<seq<byte>>, rest: seq<byte>)
    requires |vars| == |b| && IsTable(a) && Fits(a, va)
    ensures Restored(b, vars, Items(a, va) + rest) == Restored(b, PutAll(b, vars, a, va), rest)
    decreases |a|
  {
    if a == [] {
      assert Items(a, va) + rest == rest;
    } else {
      var more := Items(a[1..], va[1..]) + rest;
      assert Items(a, va) + rest == Item(a[0], va[0]) + more;
      ReadItem(b, vars, a[0], va[0], more);
      ReadItems(b, Put(b, vars, a[0].id, Saved(va[0])), a[1..], va[1..], rest);
    }
  }

  // An item that is cut short is not restored, and nothing after it.
  lemma TornItem(b: seq<Info>, vars: seq<seq<byte>>, it: Info, v: seq<byte>, m: nat)
    requires |vars| == |b| && it.id < 0x10000 && |v| == it.size && m < |Item(it, v)|
    ensures Restored(b, vars, Item(it, v)[..m]) == vars
  {
    hide *;
    var p := Item(it, v)[..m];
    ItemParts(it, v, []);
    RestoredIs(b, vars, p);
    if m >= 4 {
      ItemParts(it, v, Saved(v)[..m - 4]);
      assert p == Header(it) + Saved(v)[..m - 4];
    }
  }

  lemma ReadFile(b: seq<Info>, vars: seq<seq<byte>>, p: seq<byte>, base: nat)
    requires |vars| == |b|
    ensures Read(b, vars, Put32(CONF_MAGICK_VALUE) + Put32(base) + p) == Restored(b, vars, p)
  {
    var f := Put32(CONF_MAGICK_VALUE) + Put32(base) + p;
    assert f == Put32(CONF_MAGICK_VALUE) + (Put32(base) + p);
    Word32(CONF_MAGICK_VALUE, Put32(base) + p);
    assert f[8..] == p;
    hide Put32, Get32, Restored;
  }

  // A file read into any table, through to its end.
  lemma RestoreOther(b: seq<Info>, vars: seq<seq<byte>>, a: seq<Info>, va: seq<seq<byte>>, base: nat)
    requires |vars| == |b| && IsTable(a) && Fits(a, va)
    ensures Read(b, vars, File(a, va, base)) == PutAll(b, vars, a, va)
  {
    ReadFile(b, vars, Items(a, va), base);
    ReadItems(b, vars, a, va, []);
    assert Items(a, va) + [] == Items(a, va);
    hide Restored, Items, PutAll;
  }

  // ----- What comes of each variable -----

  // The last line of a that is restored into line j of b; |a| when there is none.
  function Source(a: seq<Info>, b: seq<Info>, j: nat): (i: nat)
    ensures i <= |a|
    ensures i < |a| ==> Line(b, a[i].id, a[i].size) == j
    ensures forall k | i < k < |a| :: Line(b, a[k].id, a[k].size) != j
    ensures i == |a| ==> forall k | 0 <= k < |a| :: Line(b, a[k].id, a[k].size) != j
  {
    if a == [] then 0
    else
      var i := Source(a[1..], b, j);
      assert forall k | 1 <= k < |a| :: a[k] == a[1..][k - 1];
      if i < |a| - 1 then i + 1 else if Line(b, a[0].id, a[0].size) == j then 0 else |a|
  }

  lemma {:induction false} PutAllAt(b: seq<Info>, vars: seq<seq<byte>>, a: seq<Info>, va: seq<seq<byte>>, j: nat)
    requires |vars| == |b| && Fits(a, va) && j < |b|
    ensures PutAll(b, vars, a, va)[j] == if Source(a, b, j) < |a| then Saved(va[Source(a, b, j)]) else vars[j]
    decreases |a|
  {
    if a != [] {
      PutAllAt(b, Put(b, vars, a[0].id, Saved(va[0])), a[1..], va[1..], j);
      hide Saved, Line;
    }
  }

  predicate DistinctIds(ci: seq<Info>) { forall i, j | 0 <= i < j < |ci| :: ci[i].id != ci[j].id }

  // Between tables without repeated ids: exactly the variables whose id and size are in the file are set,
  // to the saved values, and the others are left alone.
  lemma SchemaEvolution(b: seq<Info>, vars: seq<seq<byte>>, a: seq<Info>, va: seq<seq<byte>>, base: nat, j: nat)
    requires |vars| == |b| && IsTable(a) && Fits(a, va) && DistinctIds(a) && DistinctIds(b) && j < |b|
    ensures forall i | 0 <= i < |a| && a[i] == b[j] :: Read(b, vars, File(a, va, base))[j] == Saved(va[i])
    ensures (forall i | 0 <= i < |a| :: a[i] != b[j]) ==> Read(b, vars, File(a, va, base))[j] == vars[j]
  {
    hide *;
    RestoreOther(b, vars, a, va, base);
    PutAllAt(b, vars, a, va, j);
    forall i | 0 <= i < |a| ensures (Line(b, a[i].id, a[i].size) == j) == (a[i] == b[j]) { LineIs(b, a[i], j); }
    if i: nat :| i < |a| && a[i] == b[j] {
      forall k | 0 <= k < |a| && k != i ensures a[k] != b[j] { OtherId(a, i, k); }
    }
  }

  lemma LineIs(b: seq<Info>, it: Info, j: nat)
    requires DistinctIds(b) && j < |b|
    ensures (Line(b, it.id, it.size) == j) == (it == b[j])
  {
    hide Line;
  }

  lemma OtherId(a: seq<Info>, i: nat, k: nat)
    requires DistinctIds(a) && i < |a| && k < |a| && i != k
    ensures a[i] != a[k]
  {
  }

  // Saved and restored under the same table, every variable has its saved value, and saving again gives
  // the same file.
  lemma SaveRestore(ci: seq<Info>, vars: seq<seq<byte>>, other: seq<seq<byte>>, base: nat)
    requires IsTable(ci) && Fits(ci, vars) && Fits(ci, other) && DistinctIds(ci)
    ensures var r := Read(ci, other, File(ci, vars, base));
      && (forall j | 0 <= j < |ci| :: r[j] == Saved(vars[j]))
      && File(ci, r, base) == File(ci, vars, base)
  {
    var r := Read(ci, other, File(ci, vars, base));
    forall j | 0 <= j < |ci| ensures r[j] == Saved(vars[j]) {
      SchemaEvolution(ci, other, ci, vars, base, j);
      assert ci[j] == ci[j];
    }
    hide Read, Saved;
    SameItems(ci, r, vars);
  }

  lemma {:induction false} SameItems(ci: seq<Info>, r: seq<seq<byte>>, vars: seq<seq<byte>>)
    requires |r| == |vars| == |ci| && forall j | 0 <= j < |ci| :: r[j] == Saved(vars[j])
    ensures Items(ci, r) == Items(ci, vars)
    decreases |ci|
  {
    if ci != [] {
      SavedTwice(vars[0]);
      SameItems(ci[1..], r[1..], vars[1..]);
      hide Saved;
    }
  }

  lemma {:induction false} StrLenOf(v: seq<byte>)
    ensures StrLen(v) < |v| ==> v[StrLen(v)] == 0
    ensures forall i | 0 <= i < StrLen(v) :: v[i] != 0
  {
    if v != [] && v[0] != 0 {
      StrLenOf(v[1..]);
      forall i | 0 <= i < StrLen(v) ensures v[i] != 0 {
        if i > 0 { assert v[i] == v[1..][i - 1]; }
      }
    }
  }

  lemma {:induction false} StrLenIs(v: seq<byte>, n: nat)
    requires n <= |v| && (forall i | 0 <= i < n :: v[i] != 0) && (n < |v| ==> v[n] == 0)
    ensures StrLen(v) == n
  {
    if n > 0 { StrLenIs(v[1..], n - 1); }
  }

  lemma SavedTwice(v: seq<byte>)
    ensures Saved(Saved(v)) == Saved(v)
  {
    if |v| == CONF_STR_LEN {
      StrLenOf(v);
      var r, n := Saved(v), StrLen(v);
      assert forall i | 0 <= i < n :: r[i] == v[i];
      StrLenIs(r, n);
      hide StrLen;
    }
  }

  // A variable comes back whole unless it has the size of a string and something behind its first NUL,
  // whatever its type.
  lemma SavedWhole(v: seq<byte>)
    ensures (Saved(v) == v) == (|v| == 100 ==> forall i | StrLen(v) <= i < |v| :: v[i] == 0)
  {
    if |v| == CONF_STR_LEN {
      hide StrLen;
      var n := StrLen(v);
      if Saved(v) == v {
        assert forall i | n <= i < |v| :: Saved(v)[i] == 0;
      }
    }
  }

  // ----- A torn file -----

  lemma {:induction false} ItemsNext(ci: seq<Info>, vars: seq<seq<byte>>, i: nat)
    requires |vars| == |ci| && i < |ci|
    ensures Items(ci[..i + 1], vars[..i + 1]) == Items(ci[..i], vars[..i]) + Item(ci[i], vars[i])
    decreases |ci|
  {
    hide Item;
    if i == 0 {
      assert ci[..1][1..] == [] && vars[..1][1..] == [];
    } else {
      ItemsNext(ci[1..], vars[1..], i - 1);
      assert ci[..i + 1][1..] == ci[1..][..i] && vars[..i + 1][1..] == vars[1..][..i];
      assert ci[..i][1..] == ci[1..][..i - 1] && vars[..i][1..] == vars[1..][..i - 1];
    }
  }

  // Of a file that was cut short anywhere, exactly the items that are whole are restored.
  lemma {:induction false} TornItems(b: seq<Info>, vars: seq<seq<byte>>, a: seq<Info>, va: seq<seq<byte>>, n: nat)
    returns (k: nat)
    requires |vars| == |b| && IsTable(a) && Fits(a, va) && n <= |Items(a, va)|
    ensures k <= |a| && |Items(a[..k], va[..k])| <= n && (k < |a| ==> n < |Items(a[..k + 1], va[..k + 1])|)
    ensures Restored(b, vars, Items(a, va)[..n]) == PutAll(b, vars, a[..k], va[..k])
    decreases |a|
  {
    if a == [] {
      k := 0;
      assert Items(a, va)[..n] == [];
    } else {
      hide *;
      var it, more := Item(a[0], va[0]), Items(a[1..], va[1..]);
      ItemsIs(a, va);
      Shifted(a, va, 0);
      NoItems(a, va, b, vars);
      if n < |it| {
        k := 0;
        TornItem(b, vars, a[0], va[0], n);
        assert Items(a, va)[..n] == it[..n];
      } else {
        var vars' := Put(b, vars, a[0].id, Saved(va[0]));
        var k' := TornItems(b, vars', a[1..], va[1..], n - |it|);
        k := k' + 1;
        assert Items(a, va)[..n] == it + more[..n - |it|];
        ReadItem(b, vars, a[0], va[0], more[..n - |it|]);
        Shifted(a, va, k');
        if k < |a| { Shifted(a, va, k' + 1); }
        PutFirst(b, vars, a, va, k);
      }
    }
  }

  lemma ItemsIs(a: seq<Info>, va: seq<seq<byte>>)
    requires |va| == |a| && a != []
    ensures Items(a, va) == Item(a[0], va[0]) + Items(a[1..], va[1..])
  {
  }

  lemma NoItems(a: seq<Info>, va: seq<seq<byte>>, b: seq<Info>, vars: seq<seq<byte>>)
    requires |va| == |a| && |vars| == |b|
    ensures Items(a[..0], va[..0]) == [] && PutAll(b, vars, a[..0], va[..0]) == vars
  {
  }

  lemma PutFirst(b: seq<Info>, vars: seq<seq<byte>>, a: seq<Info>, va: seq<seq<byte>>, k: nat)
    requires |vars| == |b| && |va| == |a| && 0 < k <= |a|
    ensures PutAll(b, vars, a[..k], va[..k]) == PutAll(b, Put(b, vars, a[0].id, Saved(va[0])), a[1..][..k - 1], va[1..][..k - 1])
  {
    assert a[..k][1..] == a[1..][..k - 1] && va[..k][1..] == va[1..][..k - 1];
    hide Put, Saved;
  }

  lemma Shifted(a: seq<Info>, va: seq<seq<byte>>, k: nat)
    requires |va| == |a| && k < |a|
    ensures a[..k + 1][1..] == a[1..][..k] && va[..k + 1][1..] == va[1..][..k]
    ensures Items(a[..k + 1], va[..k + 1]) == Item(a[0], va[0]) + Items(a[1..][..k], va[1..][..k])
  {
    assert a[..k + 1][1..] == a[1..][..k] && va[..k + 1][1..] == va[1..][..k];
  }

  lemma TornFile(b: seq<Info>, vars: seq<seq<byte>>, a: seq<Info>, va: seq<seq<byte>>, base: nat, n: nat) returns (k: nat)
    requires |vars| == |b| && |va| == |a| && IsTable(a) && Fits(a, va) && 8 <= n <= |File(a, va, base)|
    ensures k <= |a| && |File(a[..k], va[..k], base)| <= n && (k < |a| ==> n < |File(a[..k + 1], va[..k + 1], base)|)
    ensures Read(b, vars, File(a, va, base)[..n]) == PutAll(b, vars, a[..k], va[..k])
  {
    hide *;
    FileIs(a, va, base);
    k := TornItems(b, vars, a, va, n - 8);
    FileIs(a[..k], va[..k], base);
    if k < |a| { FileIs(a[..k + 1], va[..k + 1], base); }
    var p := Items(a, va)[..n - 8];
    assert File(a, va, base)[..n] == Put32(CONF_MAGICK_VALUE) + Put32(base) + p;
    ReadFile(b, vars, p, base);
  }

  lemma FileIs(a: seq<Info>, va: seq<seq<byte>>, base: nat)
    requires |va| == |a|
    ensures File(a, va, base) == Put32(CONF_MAGICK_VALUE) + Put32(base) + Items(a, va)
  {
  }

  // ----- The program -----

  method StringLength(v: seq<byte>) returns (n: nat)
    ensures n == StrLen(v)
  {
    n := 0;
    while n < |v| && v[n] != 0
      invariant n <= |v| && forall i | 0 <= i < n :: v[i] != 0
    {
      n := n + 1;
    }
    StrLenIs(v, n);
  }

  // Writes one item.
  method SaveItem(buf: array<byte>, p: nat, it: Info, v: seq<byte>) returns (q: nat)
    requires |v| == it.size && p + 4 + |v| <= buf.Length
    modifies buf
    ensures q == p + 4 + |v| && buf[..q] == old(buf[..p]) + Item(it, v)
  {
    hide StrLen, Put16, Saved;
    CopyTo(buf, p, Put16(it.id));
    CopyTo(buf, p + 2, Put16(it.size));
    assert buf[..p + 4] == old(buf[..p]) + Header(it);
    q := SaveValue(buf, p + 4, v);
  }

  // The variable, with the unused space behind a string cleared.
  method SaveValue(buf: array<byte>, p: nat, v: seq<byte>) returns (q: nat)
    requires p + |v| <= buf.Length
    modifies buf
    ensures q == p + |v| && buf[..q] == old(buf[..p]) + Saved(v)
  {
    hide StrLen;
    ghost var head := buf[..p];
    CopyTo(buf, p, v);
    q := p + |v|;
    if |v| == CONF_STR_LEN {
      var n := StringLength(v);
      if n < CONF_STR_LEN {
        CopyTo(buf, p + n, Zeros(CONF_STR_LEN - n));
        assert (head + v)[..p + n] == head + v[..n];
      } else {
        assert v[..n] + [] == v && Zeros(0) == [];
      }
    }
  }

  function Size(ci: seq<Info>): nat { if ci == [] then 0 else ci[0].size + Size(ci[1..]) }

  lemma {:induction false} SizeNext(ci: seq<Info>, i: nat)
    requires i < |ci|
    ensures Size(ci[..i + 1]) == Size(ci[..i]) + ci[i].size
  {
    if i > 0 {
      SizeNext(ci[1..], i - 1);
      assert ci[..i + 1][1..] == ci[1..][..i] && ci[..i][1..] == ci[1..][..i - 1];
    } else {
      assert ci[..1][1..] == [];
    }
  }

  lemma {:induction false} SizeLeft(ci: seq<Info>, i: nat)
    requires i <= |ci|
    ensures Size(ci[..i]) <= Size(ci)
    decreases |ci| - i
  {
    if i < |ci| {
      SizeLeft(ci, i + 1);
      SizeNext(ci, i);
    } else {
      assert ci[..i] == ci;
    }
  }

  // Where the i-th item begins in the file.
  function ItemStart(ci: seq<Info>, i: nat): nat
    requires i <= |ci|
  {
    8 + 4 * i + Size(ci[..i])
  }

  lemma ItemStarts(ci: seq<Info>, i: nat)
    requires i <= |ci|
    ensures ItemStart(ci, 0) == 8 && ItemStart(ci, i) <= 8 + 4 * |ci| + Size(ci)
    ensures i < |ci| ==> ItemStart(ci, i + 1) == ItemStart(ci, i) + 4 + ci[i].size <= 8 + 4 * |ci| + Size(ci)
  {
    SizeLeft(ci, i);
    if i < |ci| {
      SizeLeft(ci, i + 1);
      SizeNext(ci, i);
    }
    assert ci[..0] == [];
  }

  method FileSize(ci: seq<Info>) returns (size: nat)
    ensures size == 8 + 4 * |ci| + Size(ci)
  {
    size := 8 + 4 * |ci|;
    for i := 0 to |ci|
      invariant size == 8 + 4 * |ci| + Size(ci[..i])
    {
      SizeNext(ci, i);
      size := size + ci[i].size;
    }
    assert ci[..|ci|] == ci;
  }

  lemma NothingSaved(ci: seq<Info>, vars: seq<seq<byte>>)
    requires |vars| == |ci|
    ensures Items(ci[..0], vars[..0]) == [] && Size(ci[..0]) == 0 && ci[..|ci|] == ci && vars[..|ci|] == vars
  {
  }

  lemma FitsAt(ci: seq<Info>, vars: seq<seq<byte>>, i: nat)
    requires Fits(ci, vars) && i < |ci|
    ensures |vars| == |ci| && |vars[i]| == ci[i].size
  {
  }

  // Writes the items behind the eight bytes of the header.
  method SaveItems(buf: array<byte>, ci: seq<Info>, vars: array<seq<byte>>) returns (p: nat)
    requires Fits(ci, vars[..]) && buf.Length == 8 + 4 * |ci| + Size(ci)
    modifies buf
    ensures p <= buf.Length && vars.Length == |ci| && buf[..p] == old(buf[..8]) + Items(ci, vars[..])
  {
    assert vars.Length == |ci|;
    hide *;
    ghost var vs, head := vars[..], buf[..8];
    NothingSaved(ci, vs);
    ItemStarts(ci, 0);
    p := 8;
    for i := 0 to |ci|
      invariant p == ItemStart(ci, i) <= buf.Length
      invariant buf[..p] == head + Items(ci[..i], vs[..i])
    {
      p := SaveNext(buf, p, ci, vars, i, head);
    }
  }

  method SaveNext(buf: array<byte>, p: nat, ci: seq<Info>, vars: array<seq<byte>>, i: nat, ghost head: seq<byte>) returns (q: nat)
    requires Fits(ci, vars[..]) && buf.Length == 8 + 4 * |ci| + Size(ci) && vars.Length == |ci| && i < |ci|
    requires p == ItemStart(ci, i) <= buf.Length && buf[..p] == head + Items(ci[..i], vars[..][..i])
    modifies buf
    ensures q == ItemStart(ci, i + 1) <= buf.Length && buf[..q] == head + Items(ci[..i + 1], vars[..][..i + 1])
  {
    hide *;
    ghost var vs := vars[..];
    ItemStarts(ci, i);
    ItemsNext(ci, vs, i);
    FitsAt(ci, vs, i);
    assert vs[i] == vars[i];
    q := SaveItem(buf, p, ci[i], vars[i]);
    Joined(head, Items(ci[..i], vs[..i]), Item(ci[i], vs[i]));
  }

  lemma Joined(a: seq<byte>, b: seq<byte>, c: seq<byte>)
    ensures a + b + c == a + (b + c)
  {
  }

  method Save(ci: seq<Info>, vars: array<seq<byte>>, base: nat) returns (file: seq<byte>)
    requires Fits(ci, vars[..])
    ensures file == File(ci, vars[..], base)
  {
    hide Size, Items, Put32, Fits;
    var size := FileSize(ci);
    var buf := new byte[size];
    CopyTo(buf, 0, Put32(CONF_MAGICK_VALUE));
    CopyTo(buf, 4, Put32(base));
    var p := SaveItems(buf, ci, vars);
    file := buf[..p];
  }

  method FindLine(ci: seq<Info>, id: nat, size: nat) returns (i: nat)
    ensures i == Line(ci, id, size)
  {
    i := 0;
    while i < |ci| && !(ci[i].id == id && ci[i].size == size)
      invariant i <= |ci| && forall j | 0 <= j < i :: ci[j].id != id || ci[j].size != size
    {
      i := i + 1;
    }
    var k := Line(ci, id, size);
  }

  // What is left of the file from offs on.
  function From(file: seq<byte>, offs: nat): seq<byte> { if offs <= |file| then file[offs..] else [] }

  method ReadShort(file: seq<byte>, offs: nat) returns (v: nat)
    requires offs + 2 <= |file|
    ensures v == Get16(file[offs..])
  {
    v := file[offs] + file[offs + 1] as int * 0x100;
  }

  method RestoreItem(ci: seq<Info>, vars: array<seq<byte>>, id: nat, size: nat, file: seq<byte>, offs: nat)
    requires vars.Length == |ci| && offs <= |file|
    modifies vars
    ensures vars[..] == if offs + size <= |file| then Put(ci, old(vars[..]), id, file[offs..offs + size]) else old(vars[..])
  {
    var i := FindLine(ci, id, size);
    if i < |ci| && offs + size <= |file| {
      vars[i] := file[offs..offs + size];
    }
  }

  // Restores the item at offs, and says whether there may be more.
  method RestoreNext(ci: seq<Info>, vars: array<seq<byte>>, file: seq<byte>, offs: nat) returns (next: nat, more: bool)
    requires vars.Length == |ci|
    modifies vars
    ensures Restored(ci, vars[..], From(file, next)) == Restored(ci, old(vars[..]), From(file, offs))
    ensures if more then offs < next < |file| + 0x10000 else next == offs && Restored(ci, vars[..], From(file, next)) == vars[..]
  {
    hide Restored, Get16, Put;
    ghost var p := From(file, offs);
    RestoredIs(ci, vars[..], p);
    next, more := offs, false;
    if offs + 2 > |file| { return; }
    var id := ReadShort(file, offs);
    if offs + 4 > |file| { return; }
    var size := ReadShort(file, offs + 2);
    Pieces(file, offs + 4, size);
    RestoreItem(ci, vars, id, size, file, offs + 4);
    next, more := offs + 4 + size, true;
    if offs + 4 + size > |file| { NothingLeft(ci, vars[..]); }
  }

  method Restore(ci: seq<Info>, vars: array<seq<byte>>, file: seq<byte>)
    requires vars.Length == |ci|
    modifies vars
    ensures vars[..] == Read(ci, old(vars[..]), file)
  {
    assert |file| < 8 ==> From(file, 8) == [];
    NothingLeft(ci, vars[..]);
    hide Restored, Get32;
    if |file| >= 4 && Get32(file) == CONF_MAGICK_VALUE {
      var offs, more := 8, true;
      while more
        invariant Restored(ci, vars[..], From(file, offs)) == Read(ci, old(vars[..]), file)
        invariant !more ==> Restored(ci, vars[..], From(file, offs)) == vars[..]
        invariant offs <= |file| + 0x10000
        decreases |file| + 0x10000 - offs, more
      {
        offs, more := RestoreNext(ci, vars, file, offs);
      }
    }
  }

  lemma NothingLeft(ci: seq<Info>, vars: seq<seq<byte>>)
    requires |vars| == |ci|
    ensures Restored(ci, vars, []) == vars
  {
  }

  lemma Pieces(file: seq<byte>, offs: nat, size: nat)
    requires 4 <= offs <= |file|
    ensures file[offs - 4..][2..] == file[offs - 2..] && file[offs - 4..][4..] == file[offs..]
    ensures offs + size <= |file| ==>
      file[offs..][..size] == file[offs..offs + size] && file[offs..][size..] == file[offs + size..]
  {
  }
}
