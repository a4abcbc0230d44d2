/** The packed frame buffer as an array of pixels (chdk-src/core/bendx.c:83-169).  Eight 10-bit pixels
    share ten bytes, four 12-bit ones share six, in an order that is not ascending. */
module Pixels {
  import opened Arith
  import opened Bits
  import opened Frame
  import opened Words

  type depth = n: nat | n == 10 || n == 12 witness 10

  function GroupBytes(n: depth): (c: nat)
    ensures c > 0
  {
    if n == 10 then 10 else 6
  }

  function GroupPixels(n: depth): (c: nat)
    ensures c > 0
  {
    if n == 10 then 8 else 4
  }

  // ----- A byte in two parts, and a pixel from two bytes -----

  // A byte is shared by two pixels: the one that comes first has its top, the next one its bottom.
  predicate Splits(m: nat) { m == 1 || m == 4 || m == 16 || m == 64 || m == 256 }

  // How many values the top has.
  function Share(m: nat): (c: nat)
    requires Splits(m)
    ensures c > 0
  {
    256 / m
  }

  function Upper(v: nat, m: nat): nat requires Splits(m) { v / Share(m) }

  function Lower(v: nat, m: nat): nat requires Splits(m) { v % Share(m) }

  function Bottom(b: byte, m: nat): nat requires Splits(m) { b % m }

  function Top(b: byte, m: nat): nat requires Splits(m) { b / m }

  function WithBottom(b: byte, m: nat, q: nat): byte
    requires Splits(m) && q < m
  {
    b / m * m + q
  }

  function WithTop(b: byte, m: nat, q: nat): byte
    requires Splits(m) && q < Share(m)
  {
    b % m + q * m
  }

  // The pixel that begins with the bottom of h, below hm, and ends with the top of l, from m up.  The
  // source has each pair of parts as a mask and a shift: (0x3f0 & (h << 4)) | (l >> 4) is Join(h, 64, l, 16).
  function Join(h: byte, hm: nat, l: byte, m: nat): nat
    requires Splits(hm) && Splits(m)
  {
    Bottom(h, hm) * Share(m) + Top(l, m)
  }

  lemma BottomSet(h: byte, m: nat, q: nat)
    requires Splits(m) && q < m
    ensures Bottom(WithBottom(h, m, q), m) == q && Top(WithBottom(h, m, q), m) == Top(h, m)
  {
    QuotientIs(h / m * m + q, m, h / m, q);
  }

  lemma TopSet(l: byte, m: nat, q: nat)
    requires Splits(m) && q < Share(m)
    ensures Top(WithTop(l, m, q), m) == q && Bottom(WithTop(l, m, q), m) == Bottom(l, m)
  {
    QuotientIs(q * m + l % m, m, q, l % m);
  }

  lemma Quarters(v: nat, hm: nat, m: nat)
    requires Splits(hm) && Splits(m) && v < hm * Share(m)
    ensures Upper(v, m) < hm && Lower(v, m) < Share(m) && v == Upper(v, m) * Share(m) + Lower(v, m)
  {
    DivMod(v, Share(m));
    if Upper(v, m) >= hm { MulMonotone(hm, Upper(v, m), Share(m)); }
  }

  // Setting both parts to those of v gives v, and leaves the neighbours' parts alone.
  lemma Patched(h: byte, hm: nat, l: byte, m: nat, v: nat)
    requires Splits(hm) && Splits(m) && v < hm * Share(m)
    ensures Upper(v, m) < hm && Lower(v, m) < Share(m)
    ensures Join(WithBottom(h, hm, Upper(v, m)), hm, WithTop(l, m, Lower(v, m)), m) == v
    ensures Top(WithBottom(h, hm, Upper(v, m)), hm) == Top(h, hm)
    ensures Bottom(WithTop(l, m, Lower(v, m)), m) == Bottom(l, m)
  {
    Quarters(v, hm, m);
    hide Bottom, Top, WithBottom, WithTop, Splits;
    BottomSet(h, hm, Upper(v, m));
    TopSet(l, m, Lower(v, m));
  }

  lemma JoinFits(h: byte, hm: nat, l: byte, m: nat)
    requires Splits(hm) && Splits(m)
    ensures Join(h, hm, l, m) < hm * Share(m)
  {
  }

  lemma Unjoin(h: byte, l: byte, h': byte, l': byte, hm: nat, m: nat)
    requires Splits(hm) && Splits(m) && Join(h, hm, l, m) == Join(h', hm, l', m)
    ensures Bottom(h, hm) == Bottom(h', hm) && Top(l, m) == Top(l', m)
  {
    assert Top(l, m) < Share(m) && Top(l', m) < Share(m);
  }

  lemma SameParts(b: byte, b': byte, m: nat)
    requires Splits(m) && Bottom(b, m) == Bottom(b', m) && Top(b, m) == Top(b', m)
    ensures b == b'
  {
  }

  // ----- One group -----

  // Where pixel k of a group is: its first byte and how it is split, its second one and how.
  datatype Place = Place(h: nat, hm: nat, l: nat, m: nat)

  function PlaceOf(k: nat, n: depth): (w: Place)
    requires k < GroupPixels(n)
    ensures w.h != w.l && w.h < GroupBytes(n) && w.l < GroupBytes(n)
    ensures Splits(w.hm) && Splits(w.m) && w.hm * Share(w.m) == Pow2(n)
  {
    Widths();
    if n == 10 then
      match k
      case 0 => Place(1, 256, 0, 64)
      case 1 => Place(0, 64, 3, 16)
      case 2 => Place(3, 16, 2, 4)
      case 3 => Place(2, 4, 5, 1)
      case 4 => Place(4, 256, 7, 64)
      case 5 => Place(7, 64, 6, 16)
      case 6 => Place(6, 16, 9, 4)
      case 7 => Place(9, 4, 8, 1)
    else
      match k
      case 0 => Place(1, 256, 0, 16)
      case 1 => Place(0, 16, 3, 1)
      case 2 => Place(2, 256, 5, 16)
      case 3 => Place(5, 16, 4, 1)
  }

  // The same as a table, whether the depth is ten.
  const PLACES: map<bool, seq<Place>> := map[
    true := [Place(1, 256, 0, 64), Place(0, 64, 3, 16), Place(3, 16, 2, 4), Place(2, 4, 5, 1),
             Place(4, 256, 7, 64), Place(7, 64, 6, 16), Place(6, 16, 9, 4), Place(9, 4, 8, 1)],
    false := [Place(1, 256, 0, 16), Place(0, 16, 3, 1), Place(2, 256, 5, 16), Place(5, 16, 4, 1)]]

  // Two pixels share a byte only by its two parts, split in the same place.
  lemma PlacesApart(k: nat, j: nat, n: depth)
    requires k < GroupPixels(n) && j < GroupPixels(n) && k != j
    ensures PlaceOf(k, n).h != PlaceOf(j, n).h && PlaceOf(k, n).l != PlaceOf(j, n).l
    ensures PlaceOf(k, n).h == PlaceOf(j, n).l ==> PlaceOf(k, n).hm == PlaceOf(j, n).m
  {
    hide PlaceOf, Pow2, Share, Splits;
    PlaceIs(k, n);
    PlaceIs(j, n);
  }

  lemma PlaceIs(k: nat, n: depth)
    requires k < GroupPixels(n)
    ensures k < |PLACES[n == 10]| && PlaceOf(k, n) == PLACES[n == 10][k]
  {
    hide Pow2, Share, Splits;
  }

  function GroupGet(a: seq<byte>, k: nat, n: depth): (v: nat)
    requires |a| == GroupBytes(n) && k < GroupPixels(n)
    ensures v < Pow2(n)
  {
    var w := PlaceOf(k, n);
    JoinFits(a[w.h], w.hm, a[w.l], w.m);
    Join(a[w.h], w.hm, a[w.l], w.m)
  }

  function GroupSet(a: seq<byte>, k: nat, v: nat, n: depth): (r: seq<byte>)
    requires |a| == GroupBytes(n) && k < GroupPixels(n) && v < Pow2(n)
    ensures |r| == |a|
  {
    var w := PlaceOf(k, n);
    Patched(a[w.h], w.hm, a[w.l], w.m, v);
    a[w.h := WithBottom(a[w.h], w.hm, Upper(v, w.m))][w.l := WithTop(a[w.l], w.m, Lower(v, w.m))]
  }

  lemma GroupSetIs(a: seq<byte>, k: nat, v: nat, n: depth)
    requires |a| == GroupBytes(n) && k < GroupPixels(n) && v < Pow2(n)
    ensures var w := PlaceOf(k, n);
      && Upper(v, w.m) < w.hm && Lower(v, w.m) < Share(w.m)
      && GroupSet(a, k, v, n) ==
         a[w.h := WithBottom(a[w.h], w.hm, Upper(v, w.m))][w.l := WithTop(a[w.l], w.m, Lower(v, w.m))]
  {
    var w := PlaceOf(k, n);
    Quarters(v, w.hm, w.m);
    hide Bottom, Top, WithBottom, WithTop, PlaceOf, Upper, Lower, Share, Pow2;
  }

  lemma Widths()
    ensures Pow2(10) == 0x400 && Pow2(12) == 0x1000
  {
    assert Pow2(5) == 32;
    assert Pow2(8) == 0x100;
    assert Pow2(9) == 0x200;
    assert Pow2(11) == 0x800;
  }

  lemma GroupSetGet(a: seq<byte>, k: nat, v: nat, n: depth, j: nat)
    requires |a| == GroupBytes(n) && k < GroupPixels(n) && j < GroupPixels(n) && v < Pow2(n)
    ensures GroupGet(GroupSet(a, k, v, n), j, n) == if j == k then v else GroupGet(a, j, n)
  {
    hide *;
    var w, u, r := PlaceOf(k, n), PlaceOf(j, n), GroupSet(a, k, v, n);
    GroupSetIs(a, k, v, n);
    GroupGetIs(r, j, n);
    GroupGetIs(a, j, n);
    Patched(a[w.h], w.hm, a[w.l], w.m, v);
    if j != k {
      PlacesApart(k, j, n);
      PlacesApart(j, k, n);
      JoinParts(r[u.h], a[u.h], u.hm, r[u.l], a[u.l], u.m);
    }
  }

  lemma GroupGetIs(a: seq<byte>, k: nat, n: depth)
    requires |a| == GroupBytes(n) && k < GroupPixels(n)
    ensures var w := PlaceOf(k, n); GroupGet(a, k, n) == Join(a[w.h], w.hm, a[w.l], w.m)
  {
    hide PlaceOf, Join, Pow2;
  }

  // A pixel is determined by the two parts it has.
  lemma JoinParts(h: byte, h': byte, hm: nat, l: byte, l': byte, m: nat)
    requires Splits(hm) && Splits(m) && Bottom(h, hm) == Bottom(h', hm) && Top(l, m) == Top(l', m)
    ensures Join(h, hm, l, m) == Join(h', hm, l', m)
  {
    hide Bottom, Top, Splits;
  }

  // The pixels that have the bottom and the top of byte i; the same one twice if it has all of it.
  function Owners(i: nat, n: depth): (r: (nat, nat))
    requires i < GroupBytes(n)
    ensures r.0 < GroupPixels(n) && r.1 < GroupPixels(n)
    ensures r.0 != r.1 ==> PlaceOf(r.0, n).h == i == PlaceOf(r.1, n).l && PlaceOf(r.0, n).hm == PlaceOf(r.1, n).m
    ensures r.0 == r.1 ==> var w := PlaceOf(r.0, n); (w.h == i && w.hm == 256) || (w.l == i && w.m == 1)
  {
    if n == 10 then
      [(1, 0), (0, 0), (3, 2), (2, 1), (4, 4), (3, 3), (6, 5), (5, 4), (7, 7), (7, 6)][i]
    else
      [(1, 0), (0, 0), (2, 2), (1, 1), (3, 3), (3, 2)][i]
  }

  // The pixels of a group determine its bytes.
  lemma GroupDetermined(a: seq<byte>, b: seq<byte>, n: depth)
    requires |a| == |b| == GroupBytes(n)
    requires forall k: nat | k < GroupPixels(n) :: GroupGet(a, k, n) == GroupGet(b, k, n)
    ensures a == b
  {
    forall i | 0 <= i < |a| ensures a[i] == b[i] { ByteDetermined(a, b, n, i); }
  }

  lemma ByteDetermined(a: seq<byte>, b: seq<byte>, n: depth, i: nat)
    requires |a| == |b| == GroupBytes(n) && i < |a|
    requires forall k: nat | k < GroupPixels(n) :: GroupGet(a, k, n) == GroupGet(b, k, n)
    ensures a[i] == b[i]
  {
    var (k, j) := Owners(i, n);
    var w, u := PlaceOf(k, n), PlaceOf(j, n);
    assert GroupGet(a, k, n) == GroupGet(b, k, n) && GroupGet(a, j, n) == GroupGet(b, j, n);
    Unjoin(a[w.h], a[w.l], b[w.h], b[w.l], w.hm, w.m);
    Unjoin(a[u.h], a[u.l], b[u.h], b[u.l], u.hm, u.m);
    Whole(a[i], b[i]);
    if k != j { SameParts(a[i], b[i], w.hm); }
    hide Bottom, Top, Join, PlaceOf, Owners, GroupGet, Pow2, Splits;
  }

  lemma Whole(a: byte, b: byte)
    ensures Bottom(a, 256) == Bottom(b, 256) ==> a == b
    ensures Top(a, 1) == Top(b, 1) ==> a == b
  {
  }
}
