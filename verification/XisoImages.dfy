/**
 * Disc images written by an independent packer, and what the reader makes of them: the
 * volume header and every directory entry are given by their bytes, low byte first.
 */
module XisoImages {
  import opened Text
  import opened XisoCatalog

  // ----- the packer -----

  /** `n` in `width` bytes, low byte first. */
  function Packed(n: nat, width: nat): (s: seq<byte>)
    ensures |s| == width
  {
    if width == 0 then [] else [n % 256] + Packed(n / 256, width - 1)
  }

  const MAGIC: seq<byte> :=
    [77, 73, 67, 82, 79, 83, 79, 70, 84, 42, 88, 66, 79, 88, 42, 77, 69, 68, 73, 65]

  /** A directory tree as it is to be written; `at` is the byte offset of the entry. */
  datatype Layout =
    | Empty
    | Placed(left: Layout, right: Layout, at: nat, sector: nat, size: nat, flags: byte, name: seq<byte>)

  /** Links count in units of four bytes, and zero is no link. */
  function Link(l: Layout): nat {
    if l.Empty? then 0 else l.at / 4
  }

  predicate CanLink(l: Layout) {
    l.Placed? ==> l.at % 4 == 0 && 0 < l.at / 4 < 0x1_0000
  }

  function PackedEntry(left: nat, right: nat, sector: nat, size: nat, flags: byte, name: seq<byte>): seq<byte> {
    Packed(left, 2) + Packed(right, 2) + Packed(sector, 4) + Packed(size, 4) + [flags] + Packed(|name|, 1) + name
  }

  /** The entry fits its fields. */
  predicate CanPack(l: Layout) {
    l.Placed? ==>
      CanLink(l.left) && CanLink(l.right) && l.sector < 0x1_0000_0000 && l.size < 0x1_0000_0000 && 1 <= |l.name| < 256
  }

  /** The directory holds the bytes of this entry. */
  predicate HoldsEntry(dir: seq<byte>, l: Layout)
    requires l.Placed?
  {
    CanPack(l) && l.at + 14 + |l.name| <= |dir| &&
    dir[l.at..l.at + 14 + |l.name|] == PackedEntry(Link(l.left), Link(l.right), l.sector, l.size, l.flags, l.name)
  }

  /** The directory holds the bytes of every entry of the tree. */
  predicate LaidOut(dir: seq<byte>, l: Layout) {
    l.Placed? ==> HoldsEntry(dir, l) && LaidOut(dir, l.left) && LaidOut(dir, l.right)
  }

  ghost function Places(l: Layout): multiset<nat> {
    if l.Empty? then multiset{} else multiset{l.at} + Places(l.left) + Places(l.right)
  }

  /** `catalog.json` in any mixture of cases. */
  predicate NamesCatalog(name: seq<byte>) {
    var text := "catalog.json";
    |name| == |text| &&
    forall i :: 0 <= i < |text| ==>
      name[i] == text[i] as int || ('a' <= text[i] <= 'z' && name[i] == text[i] as int - 32)
  }

  ghost function CatalogPlaces(l: Layout): multiset<nat> {
    if l.Empty? then multiset{}
    else (if NamesCatalog(l.name) then multiset{l.at} else multiset{}) + CatalogPlaces(l.left) + CatalogPlaces(l.right)
  }

  /** Some entry of the tree is the catalog and names these bytes of the image. */
  predicate NamesFile(iso: seq<byte>, l: Layout, bytes: seq<byte>) {
    l.Placed? &&
    ((NamesCatalog(l.name) && l.flags / 16 % 2 == 0 && 2 <= l.size <= 1048576 && l.sector * 2048 + l.size <= |iso| &&
      bytes == iso[l.sector * 2048..l.sector * 2048 + l.size]) ||
     NamesFile(iso, l.left, bytes) || NamesFile(iso, l.right, bytes))
  }

  /** The volume sector, with the magic text at both ends and the root directory's sector and size behind the first. */
  predicate HasHeader(iso: seq<byte>, sector: nat, size: nat) {
    sector < 0x1_0000_0000 && 14 <= size <= 1048576 && 33 * 2048 <= |iso| && sector * 2048 + size <= |iso| &&
    iso[32 * 2048..32 * 2048 + 28] == MAGIC + Packed(sector, 4) + Packed(size, 4) &&
    iso[33 * 2048 - 20..33 * 2048] == MAGIC
  }

  /** The image holds a tree of distinct entries, one of them the catalog, which names these bytes. */
  ghost predicate Encodes(iso: seq<byte>, sector: nat, size: nat, l: Layout, bytes: seq<byte>) {
    HasHeader(iso, sector, size) && l.Placed? && l.at == 0 &&
    LaidOut(iso[sector * 2048..sector * 2048 + size], l) && NoRepeats(Places(l)) && |Places(l)| <= 65536 &&
    |CatalogPlaces(l)| == 1 && NamesFile(iso, l, bytes)
  }

  // ----- bytes -----

  lemma TwoBytes(s: seq<byte>, at: nat, n: nat)
    requires at + 2 <= |s| && n < 0x1_0000
    ensures Le16(s, at) == n <==> s[at..at + 2] == Packed(n, 2)
  {
    var p := Packed(n, 2);
    assert Packed(n / 256, 1) == [n / 256 % 256] + Packed(n / 256 / 256, 0);
    assert p == [n % 256, n / 256];
    assert s[at..at + 2] == [s[at], s[at + 1]];
    if Le16(s, at) == n {
      var low: int, high: int := s[at], s[at + 1];
      assert n == low + 256 * high && n % 256 == low && n / 256 == high;
    }
  }

  lemma PackSplits(n: nat)
    requires n < 0x1_0000_0000
    ensures Packed(n, 4) == Packed(n % 0x1_0000, 2) + Packed(n / 0x1_0000, 2)
  {
    PackFour(n);
    PackTwo(n % 0x1_0000);
    PackTwo(n / 0x1_0000);
    hide Packed;
    LowHalf(n);
    HighHalf(n);
  }

  lemma LowHalf(n: nat)
    ensures n % 0x1_0000 % 256 == n % 256 && n % 0x1_0000 / 256 % 256 == n / 256 % 256
  {
    var q, a, b := n / 0x1_0000, n / 256 % 256, n % 256;
    assert n / 256 == 256 * q + a;
    assert n % 0x1_0000 == 256 * a + b;
  }

  lemma HighHalf(n: nat)
    ensures n / 256 / 256 == n / 0x1_0000
  {
  }

  lemma PackTwo(n: nat)
    ensures Packed(n, 2) == [n % 256, n / 256 % 256]
  {
    assert Packed(n / 256, 1) == [n / 256 % 256] + Packed(n / 256 / 256, 0);
  }

  lemma PackFour(n: nat)
    ensures Packed(n, 4) == [n % 256, n / 256 % 256, n / 256 / 256 % 256, n / 256 / 256 / 256 % 256]
  {
    PackTwo(n / 256 / 256);
    assert Packed(n / 256, 3) == [n / 256 % 256] + Packed(n / 256 / 256, 2);
  }

  lemma FourBytes(s: seq<byte>, at: nat, n: nat)
    requires at + 4 <= |s| && n < 0x1_0000_0000
    ensures Le32(s, at) == n <==> s[at..at + 4] == Packed(n, 4)
  {
    hide Packed;
    var low, high := n % 0x1_0000, n / 0x1_0000;
    PackSplits(n);
    hide Le16;
    TwoBytes(s, at, low);
    TwoBytes(s, at + 2, high);
    assert s[at..at + 4] == s[at..at + 2] + s[at + 2..at + 4];
    LeBelow(s, at);
    LeBelow(s, at + 2);
    assert n == low + 0x1_0000 * high;
    SameHalves(s[at..at + 2], s[at + 2..at + 4], Packed(low, 2), Packed(high, 2));
  }

  lemma SameHalves(a: seq<byte>, b: seq<byte>, x: seq<byte>, y: seq<byte>)
    requires |a| == |x|
    ensures a + b == x + y <==> a == x && b == y
  {
    if a + b == x + y {
      assert (a + b)[..|a|] == a && (x + y)[..|a|] == x;
      assert (a + b)[|a|..] == b && (x + y)[|a|..] == y;
    }
  }

  lemma LeBelow(s: seq<byte>, at: nat)
    requires at + 2 <= |s|
    ensures Le16(s, at) < 0x1_0000
  {
  }

  // ----- one entry -----

  /** The parts of a packed entry, each at its place. */
  lemma EntryParts(left: nat, right: nat, sector: nat, size: nat, flags: byte, name: seq<byte>)
    ensures
      var p := PackedEntry(left, right, sector, size, flags, name);
      |p| == 14 + |name| && p[0..2] == Packed(left, 2) && p[2..4] == Packed(right, 2) && p[4..8] == Packed(sector, 4) &&
      p[8..12] == Packed(size, 4) && p[12] == flags && p[13..14] == Packed(|name|, 1) && p[14..] == name
  {
    hide Packed;
  }

  lemma SlicesAgree(s: seq<byte>, from: nat, p: seq<byte>, i: nat, j: nat)
    requires from + |p| <= |s| && s[from..from + |p|] == p && i <= j <= |p|
    ensures s[from + i..from + j] == p[i..j]
  {
    forall k | i <= k < j ensures s[from + k] == p[k] {
      assert s[from..from + |p|][k] == s[from + k];
    }
  }

  lemma OneByte(n: nat)
    requires n < 256
    ensures Packed(n, 1) == [n]
  {
    assert Packed(n / 256, 0) == [];
  }

  /** The reader finds in a packed entry what was packed. */
  lemma EntryRead(dir: seq<byte>, l: Layout)
    requires l.Placed? && HoldsEntry(dir, l)
    ensures ValidEntry(dir, l.at)
    ensures EntryAt(dir, l.at) == Entry(Link(l.left), Link(l.right), l.sector, l.size, l.flags, |l.name|)
    ensures dir[l.at + 14..l.at + 14 + |l.name|] == l.name
  {
    hide Packed, PackedEntry, Le16, Le32;
    var p := PackedEntry(Link(l.left), Link(l.right), l.sector, l.size, l.flags, l.name);
    EntryParts(Link(l.left), Link(l.right), l.sector, l.size, l.flags, l.name);
    SlicesAgree(dir, l.at, p, 0, 2);
    SlicesAgree(dir, l.at, p, 2, 4);
    SlicesAgree(dir, l.at, p, 4, 8);
    SlicesAgree(dir, l.at, p, 8, 12);
    SlicesAgree(dir, l.at, p, 12, 13);
    SlicesAgree(dir, l.at, p, 13, 14);
    SlicesAgree(dir, l.at, p, 14, 14 + |l.name|);
    TwoBytes(dir, l.at, Link(l.left));
    TwoBytes(dir, l.at + 2, Link(l.right));
    FourBytes(dir, l.at + 4, l.sector);
    FourBytes(dir, l.at + 8, l.size);
    OneByte(|l.name|);
    assert dir[l.at + 12..l.at + 13][0] == p[12..13][0];
    assert dir[l.at + 13..l.at + 14][0] == p[13..14][0];
  }

  lemma EntryRanges(dir: seq<byte>, offset: nat)
    requires InRange(dir, offset)
    ensures
      var e := EntryAt(dir, offset);
      e.left < 0x1_0000 && e.right < 0x1_0000 && e.sector < 0x1_0000_0000 && e.size < 0x1_0000_0000
  {
  }

  /** Every valid entry is a packed one. */
  lemma EntryWritten(dir: seq<byte>, l: Layout)
    requires l.Placed? && ValidEntry(dir, l.at) && CanLink(l.left) && CanLink(l.right) && 1 <= |l.name| < 256
    requires
      var e := EntryAt(dir, l.at);
      e == Entry(Link(l.left), Link(l.right), l.sector, l.size, l.flags, |l.name|) &&
      l.name == dir[l.at + 14..l.at + 14 + e.nameSize]
    ensures HoldsEntry(dir, l)
  {
    EntryRanges(dir, l.at);
    hide Packed, PackedEntry, Le16, Le32;
    var p := PackedEntry(Link(l.left), Link(l.right), l.sector, l.size, l.flags, l.name);
    EntryParts(Link(l.left), Link(l.right), l.sector, l.size, l.flags, l.name);
    TwoBytes(dir, l.at, Link(l.left));
    TwoBytes(dir, l.at + 2, Link(l.right));
    FourBytes(dir, l.at + 4, l.sector);
    FourBytes(dir, l.at + 8, l.size);
    OneByte(|l.name|);
    SameParts(dir, l.at, p);
  }

  /** An entry with the parts of another is that entry. */
  lemma SameParts(s: seq<byte>, from: nat, p: seq<byte>)
    requires |p| >= 14 && from + |p| <= |s|
    requires s[from..from + 2] == p[0..2] && s[from + 2..from + 4] == p[2..4] && s[from + 4..from + 8] == p[4..8]
    requires s[from + 8..from + 12] == p[8..12] && s[from + 12] == p[12] && s[from + 13] == p[13]
    requires s[from + 14..from + |p|] == p[14..]
    ensures s[from..from + |p|] == p
  {
    assert p == p[0..2] + p[2..4] + p[4..8] + p[8..12] + [p[12]] + [p[13]] + p[14..];
    assert s[from..from + |p|] == s[from..from + 2] + s[from + 2..from + 4] + s[from + 4..from + 8] +
      s[from + 8..from + 12] + [s[from + 12]] + [s[from + 13]] + s[from + 14..from + |p|];
  }

  lemma CatalogName(name: seq<byte>)
    ensures Lower(name) == Ascii("catalog.json") <==> NamesCatalog(name)
  {
    var text := "catalog.json";
    if NamesCatalog(name) {
      assert Lower(name) == Ascii(text);
    }
    if Lower(name) == Ascii(text) {
      forall i | 0 <= i < |text|
        ensures name[i] == text[i] as int || ('a' <= text[i] <= 'z' && name[i] == text[i] as int - 32) {
        assert Lower(name)[i] == Ascii(text)[i];
      }
    }
  }

  lemma EntryIsCatalog(dir: seq<byte>, l: Layout)
    requires l.Placed? && HoldsEntry(dir, l)
    ensures OwnCatalog(dir, l.at) == if NamesCatalog(l.name) then multiset{l.at} else multiset{}
  {
    hide PackedEntry, NamesCatalog, Lower, Ascii, EntryAt;
    EntryRead(dir, l);
    CatalogName(l.name);
  }

  // ----- trees -----

  function TreeOf(l: Layout): Tree {
    if l.Empty? then Nil else Node(l.at, TreeOf(l.left), TreeOf(l.right))
  }

  lemma LinkFollows(l: Layout)
    requires CanLink(l)
    ensures Link(l) == 0 <==> l.Empty?
    ensures l.Placed? ==> Link(l) * 4 == l.at
  {
  }

  /** Following the links of a laid out tree gives the tree. */
  lemma {:induction false} LayoutUnfolds(dir: seq<byte>, l: Layout)
    requires l.Placed? && LaidOut(dir, l)
    ensures Unfolds(dir, l.at, TreeOf(l))
  {
    hide HoldsEntry, EntryAt, ValidEntry, CanLink, Link;
    EntryRead(dir, l);
    HoldsPackable(dir, l);
    LinkFollows(l.left);
    LinkFollows(l.right);
    if l.left.Placed? {
      LayoutUnfolds(dir, l.left);
    }
    if l.right.Placed? {
      LayoutUnfolds(dir, l.right);
    }
  }

  lemma {:induction false} LayoutPlaces(dir: seq<byte>, l: Layout)
    requires LaidOut(dir, l)
    ensures Nodes(TreeOf(l)) == Places(l) && Catalogs(dir, TreeOf(l)) == CatalogPlaces(l)
  {
    hide HoldsEntry, OwnCatalog, NamesCatalog;
    if l.Placed? {
      EntryIsCatalog(dir, l);
      LayoutPlaces(dir, l.left);
      LayoutPlaces(dir, l.right);
    }
  }

  lemma HoldsPackable(dir: seq<byte>, l: Layout)
    requires l.Placed? && HoldsEntry(dir, l)
    ensures CanPack(l)
  {
  }

  /** The layout of a tree the reader can follow. */
  ghost function LayoutOf(dir: seq<byte>, t: Tree): Layout {
    if t.Nil? || !ValidEntry(dir, t.offset) then Empty
    else
      var e := EntryAt(dir, t.offset);
      Placed(LayoutOf(dir, t.left), LayoutOf(dir, t.right), t.offset, e.sector, e.size, e.flags,
             dir[t.offset + 14..t.offset + 14 + e.nameSize])
  }

  lemma LinkBack(dir: seq<byte>, link: nat, t: Tree)
    requires link < 0x1_0000
    requires if link == 0 then t == Nil else LayoutOf(dir, t).Placed? && LayoutOf(dir, t).at == link * 4
    ensures Link(LayoutOf(dir, t)) == link && CanLink(LayoutOf(dir, t))
  {
    hide ValidEntry, EntryAt;
  }

  lemma {:induction false} UnfoldsLaidOut(dir: seq<byte>, offset: nat, t: Tree)
    requires Unfolds(dir, offset, t)
    ensures
      var l := LayoutOf(dir, t);
      l.Placed? && l.at == offset && LaidOut(dir, l) && TreeOf(l) == t
    decreases t
  {
    hide HoldsEntry, EntryAt, ValidEntry, Link, CanLink, LayoutOf;
    InRangeOf(dir, offset);
    var e, l := EntryAt(dir, offset), LayoutOf(dir, t);
    EntryRanges(dir, offset);
    LayoutStep(dir, t);
    NoLayout(dir);
    if e.left != 0 {
      UnfoldsLaidOut(dir, e.left * 4, t.left);
    }
    if e.right != 0 {
      UnfoldsLaidOut(dir, e.right * 4, t.right);
    }
    LinkBack(dir, e.left, t.left);
    LinkBack(dir, e.right, t.right);
    EntryWritten(dir, l);
  }

  lemma LayoutStep(dir: seq<byte>, t: Tree)
    requires t.Node? && ValidEntry(dir, t.offset)
    ensures
      var l, e := LayoutOf(dir, t), EntryAt(dir, t.offset);
      l.Placed? && l.at == t.offset && l.left == LayoutOf(dir, t.left) && l.right == LayoutOf(dir, t.right) &&
      l.sector == e.sector && l.size == e.size && l.flags == e.flags && t.offset + 14 + e.nameSize <= |dir| &&
      l.name == dir[t.offset + 14..t.offset + 14 + e.nameSize] && |l.name| == e.nameSize && 1 <= |l.name| < 256
  {
    hide EntryAt;
  }

  lemma NoLayout(dir: seq<byte>)
    ensures LayoutOf(dir, Nil) == Empty
  {
  }

  lemma InRangeOf(dir: seq<byte>, offset: nat)
    requires ValidEntry(dir, offset)
    ensures InRange(dir, offset)
  {
  }

  // ----- the volume header -----

  lemma MagicText()
    ensures Ascii("MICROSOFT*XBOX*MEDIA") == MAGIC
  {
  }

  lemma HeaderParts(iso: seq<byte>, sector: nat, size: nat)
    requires 33 * 2048 <= |iso|
    ensures iso[32 * 2048..32 * 2048 + 28] == MAGIC + Packed(sector, 4) + Packed(size, 4) <==>
            iso[VOLUME..VOLUME + 20] == MAGIC && iso[VOLUME + 20..VOLUME + 24] == Packed(sector, 4) &&
            iso[VOLUME + 24..VOLUME + 28] == Packed(size, 4)
  {
    hide Packed, MAGIC;
    assert |MAGIC| == 20 by {
      MagicLength();
    }
    var v := VOLUME;
    assert iso[v..v + 28] == iso[v..v + 20] + iso[v + 20..v + 28];
    assert iso[v + 20..v + 28] == iso[v + 20..v + 24] + iso[v + 24..v + 28];
    assert MAGIC + Packed(sector, 4) + Packed(size, 4) == MAGIC + (Packed(sector, 4) + Packed(size, 4));
    SameHalves(iso[v..v + 20], iso[v + 20..v + 28], MAGIC, Packed(sector, 4) + Packed(size, 4));
    SameHalves(iso[v + 20..v + 24], iso[v + 24..v + 28], Packed(sector, 4), Packed(size, 4));
  }

  lemma MagicLength()
    ensures |MAGIC| == 20
  {
  }

  lemma HeaderRead(iso: seq<byte>, sector: nat, size: nat)
    requires HasHeader(iso, sector, size)
    ensures HasRoot(iso) && Root(iso) == iso[sector * 2048..sector * 2048 + size]
  {
    hide Packed, MAGIC, Ascii, Le32;
    MagicText();
    HeaderParts(iso, sector, size);
    FourBytes(iso, VOLUME + 20, sector);
    FourBytes(iso, VOLUME + 24, size);
  }

  lemma HeaderWritten(iso: seq<byte>)
    requires HasRoot(iso)
    ensures HasHeader(iso, Le32(iso, VOLUME + 20), RootSize(iso))
  {
    hide Packed, MAGIC, Ascii, Le32;
    var sector, size := Le32(iso, VOLUME + 20), Le32(iso, VOLUME + 24);
    MagicText();
    HeaderParts(iso, sector, size);
    Le32Below(iso, VOLUME + 20);
    FourBytes(iso, VOLUME + 20, sector);
    FourBytes(iso, VOLUME + 24, size);
  }

  lemma Le32Below(s: seq<byte>, at: nat)
    requires at + 4 <= |s|
    ensures Le32(s, at) < 0x1_0000_0000
  {
  }

  // ----- the file -----

  /** The file of a catalog entry is the one it names by its packed sector and size. */
  lemma SpanNamed(dir: seq<byte>, iso: seq<byte>, l: Layout, bytes: seq<byte>)
    requires l.Placed? && HoldsEntry(dir, l)
    ensures ValidEntry(dir, l.at)
    ensures CatalogSpan(dir, iso, l.at) == Some(bytes) <==>
            l.flags / 16 % 2 == 0 && 2 <= l.size <= 1048576 && l.sector * 2048 + l.size <= |iso| &&
            bytes == iso[l.sector * 2048..l.sector * 2048 + l.size]
  {
    hide PackedEntry, EntryAt;
    EntryRead(dir, l);
    hide ValidEntry;
  }

  lemma {:induction false} FileHasPlace(dir: seq<byte>, iso: seq<byte>, l: Layout, bytes: seq<byte>)
    requires LaidOut(dir, l) && NamesFile(iso, l, bytes)
    ensures exists c :: c in CatalogPlaces(l) && ValidEntry(dir, c) && CatalogSpan(dir, iso, c) == Some(bytes)
  {
    hide HoldsEntry, NamesCatalog, ValidEntry, CatalogSpan;
    SpanNamed(dir, iso, l, bytes);
    if NamesFile(iso, l.left, bytes) {
      FileHasPlace(dir, iso, l.left, bytes);
    } else if NamesFile(iso, l.right, bytes) {
      FileHasPlace(dir, iso, l.right, bytes);
    } else {
      assert l.at in CatalogPlaces(l);
    }
  }

  lemma {:induction false} PlaceHasFile(dir: seq<byte>, iso: seq<byte>, l: Layout, c: nat, bytes: seq<byte>)
    requires LaidOut(dir, l) && c in CatalogPlaces(l) && ValidEntry(dir, c) && CatalogSpan(dir, iso, c) == Some(bytes)
    ensures NamesFile(iso, l, bytes)
  {
    hide HoldsEntry, NamesCatalog, ValidEntry, CatalogSpan;
    SpanNamed(dir, iso, l, bytes);
    if c in CatalogPlaces(l.left) {
      PlaceHasFile(dir, iso, l.left, c, bytes);
    } else if c in CatalogPlaces(l.right) {
      PlaceHasFile(dir, iso, l.right, c, bytes);
    }
  }

  // ----- the reader -----

  lemma OneElement(m: multiset<nat>, c: nat)
    requires c in m
    ensures |m| == 1 <==> m == multiset{c}
  {
    var rest := m - multiset{c};
    assert m == multiset{c} + rest;
    if |m| == 1 {
      assert |rest| == 0;
    }
  }

  lemma LayoutReadable(dir: seq<byte>, iso: seq<byte>, l: Layout, bytes: seq<byte>)
    requires l.Placed? && l.at == 0 && LaidOut(dir, l)
    ensures Readable(dir, iso, TreeOf(l), bytes) <==>
            NoRepeats(Places(l)) && |Places(l)| <= 65536 && |CatalogPlaces(l)| == 1 && NamesFile(iso, l, bytes)
  {
    hide LaidOut, ValidEntry, CatalogSpan, NamesFile, Unfolds, Nodes, Catalogs, CatalogPlaces, Places, NoRepeats;
    LayoutUnfolds(dir, l);
    LayoutPlaces(dir, l);
    if |CatalogPlaces(l)| == 1 && NamesFile(iso, l, bytes) {
      FileHasPlace(dir, iso, l, bytes);
      var c :| c in CatalogPlaces(l) && ValidEntry(dir, c) && CatalogSpan(dir, iso, c) == Some(bytes);
      OneElement(CatalogPlaces(l), c);
    }
    if Readable(dir, iso, TreeOf(l), bytes) {
      var c: nat :| Catalogs(dir, TreeOf(l)) == multiset{c} && ValidEntry(dir, c) && CatalogSpan(dir, iso, c) == Some(bytes);
      assert c in CatalogPlaces(l);
      PlaceHasFile(dir, iso, l, c, bytes);
    }
  }

  /** The reader returns a file exactly for the images that encode a directory with that one catalog file. */
  lemma EncodedReadsExactly(iso: seq<byte>, bytes: seq<byte>)
    ensures EmbeddedSpec(iso) == Found(bytes) <==> exists sector, size, l :: Encodes(iso, sector, size, l, bytes)
  {
    hide EmbeddedSpec, Readable, LaidOut, NamesFile, HasHeader, HasRoot, NoRepeats;
    ImageReadsExactly(iso, bytes);
    if EmbeddedSpec(iso) == Found(bytes) {
      var t :| Readable(Root(iso), iso, t, bytes);
      FoundEncodes(iso, t, bytes);
    }
    if sector, size, l :| Encodes(iso, sector, size, l, bytes) {
      HeaderRead(iso, sector, size);
      LayoutReadable(Root(iso), iso, l, bytes);
    }
  }

  lemma FoundEncodes(iso: seq<byte>, t: Tree, bytes: seq<byte>)
    requires HasRoot(iso) && Readable(Root(iso), iso, t, bytes)
    ensures exists sector, size, l :: Encodes(iso, sector, size, l, bytes)
  {
    hide Readable, LaidOut, NamesFile, HasHeader, HasRoot, NoRepeats, Unfolds, Le32, Root, RootSize, LayoutOf, TreeOf,
         Places, CatalogPlaces;
    RootInside(iso);
    var dir, sector, size := Root(iso), Le32(iso, VOLUME + 20), RootSize(iso);
    ReadableUnfolds(dir, iso, t, bytes);
    UnfoldsLaidOut(dir, 0, t);
    var l := LayoutOf(dir, t);
    LayoutReadable(dir, iso, l, bytes);
    HeaderWritten(iso);
    HeaderSizes(iso, sector, size);
    HeaderRead(iso, sector, size);
    assert Encodes(iso, sector, size, l, bytes);
  }

  lemma RootInside(iso: seq<byte>)
    requires HasRoot(iso)
    ensures VOLUME + SECTOR <= |iso|
  {
  }

  lemma ReadableUnfolds(dir: seq<byte>, iso: seq<byte>, t: Tree, bytes: seq<byte>)
    requires Readable(dir, iso, t, bytes)
    ensures Unfolds(dir, 0, t)
  {
    hide Unfolds, Catalogs, CatalogSpan;
  }

  lemma HeaderSizes(iso: seq<byte>, sector: nat, size: nat)
    requires HasHeader(iso, sector, size)
    ensures 33 * 2048 <= |iso| && sector * 2048 + size <= |iso|
  {
  }

  // ----- one file on an image -----

  const NAME: seq<byte> := [99, 97, 116, 97, 108, 111, 103, 46, 106, 115, 111, 110]

  function Blank(n: nat): seq<byte> {
    seq(n, _ => 0)
  }

  /** An image with its root directory on sector 33, holding one entry, and the file on sector 34. */
  function ImageOf(file: seq<byte>): seq<byte>
    requires |file| < 0x1_0000_0000
  {
    Blank(65536) + MAGIC + Packed(33, 4) + Packed(26, 4) + Blank(2000) + MAGIC +
    PackedEntry(0, 0, 34, |file|, 0, NAME) + Blank(2022) + file
  }

  lemma NameIsCatalog()
    ensures NamesCatalog(NAME) && |NAME| == 12
  {
  }

  lemma ImageParts(file: seq<byte>)
    requires |file| < 0x1_0000_0000
    ensures
      var iso := ImageOf(file);
      |iso| == 34 * 2048 + |file| && iso[32 * 2048..32 * 2048 + 28] == MAGIC + Packed(33, 4) + Packed(26, 4) &&
      iso[33 * 2048 - 20..33 * 2048] == MAGIC &&
      iso[33 * 2048..33 * 2048 + 26] == PackedEntry(0, 0, 34, |file|, 0, NAME) && iso[34 * 2048..] == file
  {
    hide Packed, MAGIC, NAME, PackedEntry, Blank;
    MagicLength();
    NameIsCatalog();
    EntryParts(0, 0, 34, |file|, 0, NAME);
    BlankLength(65536);
    BlankLength(2000);
    BlankLength(2022);
    var iso := ImageOf(file);
    var head := MAGIC + Packed(33, 4) + Packed(26, 4);
    var entry := PackedEntry(0, 0, 34, |file|, 0, NAME);
    assert iso == Blank(65536) + head + Blank(2000) + MAGIC + entry + Blank(2022) + file;
    assert iso[32 * 2048..32 * 2048 + 28] == head;
    assert iso[33 * 2048 - 20..33 * 2048] == MAGIC;
    assert iso[33 * 2048..33 * 2048 + 26] == entry;
    assert iso[34 * 2048..] == file;
  }

  lemma BlankLength(n: nat)
    ensures |Blank(n)| == n
  {
  }

  lemma OnePlace(l: Layout)
    requires l.Placed? && l.left == Empty && l.right == Empty && NamesCatalog(l.name)
    ensures Places(l) == multiset{l.at} && CatalogPlaces(l) == multiset{l.at}
  {
    hide NamesCatalog;
    assert CatalogPlaces(Empty) == multiset{} && Places(Empty) == multiset{};
  }

  lemma NoRepeatOfOne(o: nat)
    ensures NoRepeats(multiset{o})
  {
    assert forall x: nat :: multiset{o}[x] <= 1;
  }

  lemma OwnFile(iso: seq<byte>, l: Layout, bytes: seq<byte>)
    requires l.Placed? && NamesCatalog(l.name) && l.flags == 0 && 2 <= l.size <= 1048576
    requires l.sector * 2048 + l.size <= |iso| && bytes == iso[l.sector * 2048..l.sector * 2048 + l.size]
    ensures NamesFile(iso, l, bytes)
  {
    hide NamesCatalog;
  }

  /** A file of 2 bytes to 1 MiB put on an image is the one the reader returns. */
  lemma ImageRoundTrip(file: seq<byte>)
    requires 2 <= |file| <= 1048576
    ensures EmbeddedSpec(ImageOf(file)) == Found(file)
  {
    hide Packed, MAGIC, NAME, PackedEntry, ImageOf, EmbeddedSpec, NamesCatalog;
    var iso, l := ImageOf(file), Placed(Empty, Empty, 0, 34, |file|, 0, NAME);
    ImageParts(file);
    NameIsCatalog();
    var dir := iso[33 * 2048..33 * 2048 + 26];
    assert dir[0..26] == dir;
    assert iso[34 * 2048..34 * 2048 + |file|] == file;
    assert l.name == NAME && NamesCatalog(l.name);
    OnePlace(l);
    assert HasHeader(iso, 33, 26);
    assert HoldsEntry(dir, l);
    assert LaidOut(dir, l);
    NoRepeatOfOne(l.at);
    OwnFile(iso, l, file);
    assert Encodes(iso, 33, 26, l, file);
    EncodedReadsExactly(iso, file);
  }
}
