/**
 A lossless codec exists: a plain prefix-free encoding of posting lists and dictionaries,
 so the premise under which the segment and engine theorems are stated can be met.
 */
module Encoding {
  import opened Memory
  import opened Segment

  /** No encoding followed by anything reads as another one followed by something. */
  ghost predicate PrefixFree<T(!new)>(enc: T -> bytes) {
    forall x, y, r, r' :: Clash(enc, x, y, r, r') ==> x == y && r == r'
  }

  ghost predicate Clash<T>(enc: T -> bytes, x: T, y: T, r: bytes, r': bytes) { enc(x) + r == enc(y) + r' }

  function EncNat(n: nat): bytes { if n == 0 then [0] else [1] + EncNat(n - 1) }

  /** A leading byte reads back, and so does what follows. */
  lemma HeadReads(x: byte, a: bytes, r: bytes, y: byte, b: bytes, r': bytes)
    requires [x] + a + r == [y] + b + r'
    ensures x == y && a + r == b + r'
  {
    var s, t := [x] + a + r, [y] + b + r';
    assert s[0] == x && t[0] == y && s[1..] == a + r && t[1..] == b + r';
  }

  function NatTail(x: nat): bytes { if x == 0 then [] else EncNat(x - 1) }

  lemma {:induction false} NatHead(x: nat)
    ensures EncNat(x) == [if x == 0 then 0 else 1] + NatTail(x)
  {
  }

  lemma {:induction false} NatReads(x: nat, y: nat, r: bytes, r': bytes)
    requires EncNat(x) + r == EncNat(y) + r'
    ensures x == y && r == r'
    decreases x
  {
    var a, b := NatTail(x), NatTail(y);
    NatHead(x);
    NatHead(y);
    HeadReads(if x == 0 then 0 else 1, a, r, if y == 0 then 0 else 1, b, r');
    if x > 0 {
      NatReads(x - 1, y - 1, r, r');
    } else {
      assert a + r == r && b + r' == r';
    }
  }

  function EncInt(n: int): bytes { if n < 0 then [1] + EncNat(-n) else [0] + EncNat(n) }

  lemma {:induction false} IntReads(x: int, y: int, r: bytes, r': bytes)
    requires EncInt(x) + r == EncInt(y) + r'
    ensures x == y && r == r'
  {
    var m, n := if x < 0 then -x else x, if y < 0 then -y else y;
    HeadReads(if x < 0 then 1 else 0, EncNat(m), r, if y < 0 then 1 else 0, EncNat(n), r');
    NatReads(m, n, r, r');
  }

  function EncList<T>(enc: T -> bytes, s: seq<T>): bytes {
    if s == [] then [0] else [1] + (enc(s[0]) + EncList(enc, s[1..]))
  }

  lemma {:induction false} ListReads<T(!new)>(enc: T -> bytes, x: seq<T>, y: seq<T>, r: bytes, r': bytes)
    requires PrefixFree(enc) && EncList(enc, x) + r == EncList(enc, y) + r'
    ensures x == y && r == r'
    decreases |x|
  {
    var a, b := EncList(enc, x) + r, EncList(enc, y) + r';
    assert a[0] == EncList(enc, x)[0] && b[0] == EncList(enc, y)[0];
    if x != [] && y != [] {
      var rx, ry := EncList(enc, x[1..]) + r, EncList(enc, y[1..]) + r';
      assert a[1..] == enc(x[0]) + rx && b[1..] == enc(y[0]) + ry;
      assert Clash(enc, x[0], y[0], rx, ry);
      ListReads(enc, x[1..], y[1..], r, r');
      assert x == [x[0]] + x[1..] && y == [y[0]] + y[1..];
    } else {
      assert a[1..] == r && b[1..] == r';
    }
  }

  function EncChar(c: char): bytes { EncNat(c as int) }

  function EncString(s: string): bytes { EncList(EncChar, s) }

  lemma StringReads(x: string, y: string, r: bytes, r': bytes)
    requires EncString(x) + r == EncString(y) + r'
    ensures x == y && r == r'
  {
    forall c, d, t, t' | Clash(EncChar, c, d, t, t') ensures c == d && t == t' { NatReads(c as int, d as int, t, t'); }
    ListReads(EncChar, x, y, r, r');
  }

  lemma Regroup(a: bytes, b: bytes, r: bytes)
    ensures (a + b) + r == a + (b + r)
  {
  }

  function EncPosting(p: Posting): bytes {
    EncString(p.docID) + (EncNat(p.frequency) + EncList(EncNat, p.positions))
  }

  lemma {:induction false} PostingParts(p: Posting, r: bytes)
    ensures EncPosting(p) + r == EncString(p.docID) + (EncNat(p.frequency) + (EncList(EncNat, p.positions) + r))
  {
    Regroup(EncString(p.docID), EncNat(p.frequency) + EncList(EncNat, p.positions), r);
    Regroup(EncNat(p.frequency), EncList(EncNat, p.positions), r);
  }

  lemma {:induction false} PostingReads(x: Posting, y: Posting, r: bytes, r': bytes)
    requires EncPosting(x) + r == EncPosting(y) + r'
    ensures x == y && r == r'
  {
    var px, py := EncList(EncNat, x.positions) + r, EncList(EncNat, y.positions) + r';
    var fx, fy := EncNat(x.frequency) + px, EncNat(y.frequency) + py;
    PostingParts(x, r);
    PostingParts(y, r');
    StringReads(x.docID, y.docID, fx, fy);
    NatReads(x.frequency, y.frequency, px, py);
    forall c, d, t, t' | Clash(EncNat, c, d, t, t') ensures c == d && t == t' { NatReads(c, d, t, t'); }
    ListReads(EncNat, x.positions, y.positions, r, r');
  }

  function EncEntry(e: DictEntry): bytes {
    EncString(e.term) + (EncInt(e.postOffset) + (EncInt(e.postLen) + EncInt(e.docFreq)))
  }

  lemma {:induction false} EntryParts(e: DictEntry, r: bytes)
    ensures EncEntry(e) + r
         == EncString(e.term) + (EncInt(e.postOffset) + (EncInt(e.postLen) + (EncInt(e.docFreq) + r)))
  {
    var offset, length, freq := EncInt(e.postOffset), EncInt(e.postLen), EncInt(e.docFreq);
    Regroup(EncString(e.term), offset + (length + freq), r);
    Regroup(offset, length + freq, r);
    Regroup(length, freq, r);
  }

  lemma {:induction false} EntryReads(x: DictEntry, y: DictEntry, r: bytes, r': bytes)
    requires EncEntry(x) + r == EncEntry(y) + r'
    ensures x == y && r == r'
  {
    var dx, dy := EncInt(x.docFreq) + r, EncInt(y.docFreq) + r';
    var lx, ly := EncInt(x.postLen) + dx, EncInt(y.postLen) + dy;
    var ox, oy := EncInt(x.postOffset) + lx, EncInt(y.postOffset) + ly;
    EntryParts(x, r);
    EntryParts(y, r');
    StringReads(x.term, y.term, ox, oy);
    IntReads(x.postOffset, y.postOffset, lx, ly);
    IntReads(x.postLen, y.postLen, dx, dy);
    IntReads(x.docFreq, y.docFreq, r, r');
  }

  /** Decoding as the inverse of an encoding. */
  ghost function Dec<T(!new)>(enc: T -> bytes, b: bytes): Option<seq<T>> {
    if exists s :: EncList(enc, s) == b then
      var s :| EncList(enc, s) == b;
      Some(s)
    else None
  }

  lemma DecReads<T(!new)>(enc: T -> bytes, s: seq<T>)
    requires PrefixFree(enc)
    ensures Dec(enc, EncList(enc, s)) == Some(s)
  {
    var t :| EncList(enc, t) == EncList(enc, s) && Dec(enc, EncList(enc, s)) == Some(t);
    ListReads(enc, t, s, [], []);
  }

  ghost function PlainCodec(): Codec {
    Codec((ps: PostingList) => EncList(EncPosting, ps), (b: bytes) => Dec(EncPosting, b),
          (d: seq<DictEntry>) => EncList(EncEntry, d), (b: bytes) => Dec(EncEntry, b), _ => 0)
  }

  lemma LosslessCodecExists()
    ensures Lossless(PlainCodec())
  {
    forall x, y, r, r' | Clash(EncPosting, x, y, r, r') ensures x == y && r == r' { PostingReads(x, y, r, r'); }
    forall x, y, r, r' | Clash(EncEntry, x, y, r, r') ensures x == y && r == r' { EntryReads(x, y, r, r'); }
    forall ps: PostingList ensures Dec(EncPosting, EncList(EncPosting, ps)) == Some(ps) { DecReads(EncPosting, ps); }
    forall d: seq<DictEntry> ensures Dec(EncEntry, EncList(EncEntry, d)) == Some(d) { DecReads(EncEntry, d); }
  }
}
