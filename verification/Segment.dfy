/**
 The `.spdx` segment file: a 64-byte header, the posting lists one after another,
 the term dictionary, and a 32-byte footer.  The writer appends to a file and patches
 the header at the end; the reader decodes the header, loads the dictionary and
 answers by binary search.  JSON and CRC32 are a `Codec` of which only the round trip
 is assumed.
 */
module Segment {
  import opened Ordering
  import opened Memory

  type byte = b: int | 0 <= b < 256
  type bytes = seq<byte>

  const MAGIC: nat := 0x53504458
  const FORMAT_VERSION: nat := 1
  const HEADER_SIZE: nat := 64
  const FOOTER_SIZE: nat := 32
  const UINT32: nat := 0x1_0000_0000
  const INT64: nat := 0x8000_0000_0000_0000

  datatype Option<T> = None | Some(value: T)

  datatype Error = EmptySegment | TooLarge | ReadFailed | BadMagic | BadJSON | Panic
  datatype Result<T> = Ok(value: T) | Err(error: Error)

  datatype DictEntry = DictEntry(term: string, postOffset: int, postLen: int, docFreq: int)

  function DictKey(e: DictEntry): string { e.term }

  datatype Header = Header(version: nat, termCount: nat, docCount: nat,
                           dictOffset: int, dictSize: int, postOffset: int, postSize: int)

  datatype Reader = Reader(name: string, file: bytes, header: Header, dict: seq<DictEntry>, postBase: int)

  datatype Codec = Codec(encPostings: PostingList -> bytes, decPostings: bytes -> Option<PostingList>,
                         encDict: seq<DictEntry> -> bytes, decDict: bytes -> Option<seq<DictEntry>>,
                         crc: bytes -> nat)

  /** Decoding undoes encoding. */
  ghost predicate Lossless(c: Codec) {
    && (forall ps: PostingList :: c.decPostings(c.encPostings(ps)) == Some(ps))
    && (forall d: seq<DictEntry> :: c.decDict(c.encDict(d)) == Some(d))
  }

  // ---- Little-endian integers ----

  function Pow256(k: nat): nat { if k == 0 then 1 else 256 * Pow256(k - 1) }

  function ToLE(x: nat, k: nat): (r: bytes)
    ensures |r| == k
    decreases k
  {
    if k == 0 then [] else [x % 256] + ToLE(x / 256, k - 1)
  }

  function FromLE(b: bytes): nat {
    if b == [] then 0 else b[0] + 256 * FromLE(b[1..])
  }

  lemma {:induction false} FromToLE(x: nat, k: nat)
    requires x < Pow256(k)
    ensures FromLE(ToLE(x, k)) == x
    decreases k
  {
    if k > 0 {
      FromToLE(x / 256, k - 1);
      assert ToLE(x, k)[1..] == ToLE(x / 256, k - 1);
    }
  }

  /** Reading back keeps what fits, and every byte counts. */
  lemma {:induction false} ToFromLE(b: bytes)
    ensures ToLE(FromLE(b), |b|) == b && FromLE(b) < Pow256(|b|)
  {
    if b != [] {
      ToFromLE(b[1..]);
      assert b == [b[0]] + b[1..];
    }
  }

  lemma {:induction false} FromToLEMod(x: nat, k: nat)
    ensures Pow256(k) > 0 && FromLE(ToLE(x, k)) == x % Pow256(k)
    decreases k
  {
    if k > 0 {
      FromToLEMod(x / 256, k - 1);
      assert ToLE(x, k)[1..] == ToLE(x / 256, k - 1);
      SplitRemainder(x, Pow256(k - 1));
    }
  }

  lemma SplitRemainder(x: nat, p: nat)
    requires p > 0
    ensures x % (256 * p) == x % 256 + 256 * ((x / 256) % p)
  {
    var q, r := x / 256, x % 256;
    var u, v := q / p, q % p;
    assert x == 256 * (u * p + v) + r == (256 * p) * u + (256 * v + r);
    assert 256 * v + r < 256 * p;
    RemainderIs(x, 256 * p, u, 256 * v + r);
  }

  lemma RemainderIs(x: nat, m: nat, u: nat, r: nat)
    requires m > 0 && x == m * u + r && r < m
    ensures x % m == r
  {
    var w, s := x / m, x % m;
    assert x == m * w + s;
    if w < u { Product(m, u - w); }
    if w > u { Product(m, w - u); }
  }

  lemma Product(m: nat, k: nat)
    requires k >= 1
    ensures m * k >= m
  {
  }

  lemma WidthBounds()
    ensures Pow256(4) == UINT32
    ensures Pow256(8) == 2 * INT64
  {
    assert Pow256(2) == 0x1_0000;
    assert Pow256(4) == 256 * (256 * Pow256(2));
    assert Pow256(6) == 256 * (256 * Pow256(4));
    assert Pow256(8) == 256 * (256 * Pow256(6));
  }

  /** `int64(uint64)`: two's complement reading of 64 bits. */
  function AsInt64(x: nat): int { if x < INT64 then x else x - 2 * INT64 }

  // ---- Fixed-size buffers ----

  function Patch(s: bytes, at: nat, b: bytes): (r: bytes)
    requires at + |b| <= |s|
    ensures |r| == |s|
  {
    s[..at] + b + s[at + |b|..]
  }

  function Zeros(n: nat): bytes { seq(n, _ => 0) }

  /** A patched field reads back; fields elsewhere are untouched. */
  lemma PatchField(s: bytes, at: nat, b: bytes, from: nat, to: nat)
    requires at + |b| <= |s| && from <= to <= |s|
    ensures from == at && to == at + |b| ==> Patch(s, at, b)[from..to] == b
    ensures to <= at || at + |b| <= from ==> Patch(s, at, b)[from..to] == s[from..to]
  {
    var r := Patch(s, at, b);
    forall i | 0 <= i < |s| ensures r[i] == if at <= i < at + |b| then b[i - at] else s[i] {
    }
  }

  /** `binary.LittleEndian.PutUint32` / `PutUint64` into a buffer. */
  method PutLE(a: array<byte>, at: nat, x: nat, k: nat)
    requires at + k <= a.Length
    modifies a
    ensures a[..] == Patch(old(a[..]), at, ToLE(x, k))
  {
    var rest := x;
    for i := 0 to k
      invariant ToLE(x, k)[i..] == ToLE(rest, k - i)
      invariant forall j :: 0 <= j < a.Length ==>
                  a[j] == if at <= j < at + i then ToLE(x, k)[j - at] else old(a[j])
    {
      assert ToLE(rest, k - i)[0] == ToLE(x, k)[i..][0] == ToLE(x, k)[i];
      a[at + i] := rest % 256;
      assert ToLE(x, k)[i..][1..] == ToLE(x, k)[i + 1..];
      rest := rest / 256;
    }
  }

  /** An integer to be stored at a place in a buffer. */
  datatype Field = Field(at: nat, value: nat, width: nat)

  predicate Fit(n: nat, fields: seq<Field>) {
    forall i :: 0 <= i < |fields| ==> fields[i].at + fields[i].width <= n
  }

  function PutFields(s: bytes, fields: seq<Field>): (r: bytes)
    requires Fit(|s|, fields)
    ensures |r| == |s|
  {
    if fields == [] then s
    else
      var n := |fields| - 1;
      var f := fields[n];
      Patch(PutFields(s, fields[..n]), f.at, ToLE(f.value, f.width))
  }

  predicate Apart(f: Field, from: nat, to: nat) { to <= f.at || f.at + f.width <= from }

  lemma {:induction false} Untouched(s: bytes, fields: seq<Field>, from: nat, to: nat)
    requires Fit(|s|, fields) && from <= to <= |s|
    requires forall i :: 0 <= i < |fields| ==> Apart(fields[i], from, to)
    ensures PutFields(s, fields)[from..to] == s[from..to]
  {
    if fields != [] {
      var n := |fields| - 1;
      Untouched(s, fields[..n], from, to);
      PatchField(PutFields(s, fields[..n]), fields[n].at, ToLE(fields[n].value, fields[n].width), from, to);
    }
  }

  /** A stored integer reads back when no later field overlaps it. */
  lemma {:induction false} FieldReads(s: bytes, fields: seq<Field>, k: nat)
    requires Fit(|s|, fields) && k < |fields|
    requires forall i :: k < i < |fields| ==> Apart(fields[i], fields[k].at, fields[k].at + fields[k].width)
    ensures PutFields(s, fields)[fields[k].at..fields[k].at + fields[k].width] == ToLE(fields[k].value, fields[k].width)
  {
    var n := |fields| - 1;
    var from, to := fields[k].at, fields[k].at + fields[k].width;
    var before, last := PutFields(s, fields[..n]), ToLE(fields[n].value, fields[n].width);
    if k < n {
      FieldReads(s, fields[..n], k);
      assert Apart(fields[n], from, to);
    }
    PatchField(before, fields[n].at, last, from, to);
  }

  method PutAll(a: array<byte>, fields: seq<Field>)
    requires Fit(a.Length, fields)
    modifies a
    ensures a[..] == PutFields(old(a[..]), fields)
  {
    for i := 0 to |fields|
      invariant a[..] == PutFields(old(a[..]), fields[..i])
    {
      assert fields[..i + 1][..i] == fields[..i];
      PutLE(a, fields[i].at, fields[i].value, fields[i].width);
    }
    assert fields[..|fields|] == fields;
  }

  // ---- The file as a value ----

  /** All posting lists, encoded one after another. */
  function Region(c: Codec, entries: seq<TermEntry>): bytes {
    if entries == [] then []
    else
      var n := |entries| - 1;
      Region(c, entries[..n]) + c.encPostings(entries[n].postings)
  }

  function Dict(c: Codec, entries: seq<TermEntry>): (d: seq<DictEntry>)
    ensures |d| == |entries|
    ensures forall i :: 0 <= i < |d| ==> d[i].term == entries[i].term
  {
    if entries == [] then []
    else
      var n := |entries| - 1;
      var e := entries[n];
      Dict(c, entries[..n]) +
      [DictEntry(e.term, |Region(c, entries[..n])|, |c.encPostings(e.postings)|, |e.postings|)]
  }

  function DocIDs(entries: seq<TermEntry>): set<string> {
    set e, p | e in entries && p in e.postings :: p.docID
  }

  function EarlyHeader(termCount: nat): (h: bytes)
    ensures |h| == HEADER_SIZE
  {
    PutFields(Zeros(HEADER_SIZE), EarlyFields(termCount))
  }

  function EarlyFields(termCount: nat): seq<Field> {
    [Field(0, MAGIC, 4), Field(4, FORMAT_VERSION, 4), Field(8, termCount % UINT32, 4)]
  }

  function LateFields(docCount: nat, dictStart: nat, dictSize: nat, postStart: nat, postSize: nat): seq<Field> {
    [Field(12, docCount % UINT32, 4), Field(16, dictStart, 8), Field(24, dictSize, 8),
     Field(32, postStart, 8), Field(40, postSize, 8)]
  }

  function FinalHeader(termCount: nat, docCount: nat, dictStart: nat, dictSize: nat, postStart: nat,
                       postSize: nat): (h: bytes)
    ensures |h| == HEADER_SIZE
  {
    PutFields(EarlyHeader(termCount), LateFields(docCount, dictStart, dictSize, postStart, postSize))
  }

  function Footer(crc: nat, docCount: nat, dictStart: nat, dictSize: nat, postSize: nat): bytes {
    ToLE(crc, 4) + ToLE(docCount % UINT32, 4) + ToLE(dictStart, 8) + ToLE(dictSize, 8) + ToLE(postSize, 8)
  }

  function SegmentBytes(c: Codec, entries: seq<TermEntry>): bytes {
    var region := Region(c, entries);
    var dictData := c.encDict(Dict(c, entries));
    var docs := |DocIDs(entries)|;
    var dictStart := HEADER_SIZE + |region|;
    FinalHeader(|entries|, docs, dictStart, |dictData|, HEADER_SIZE, |region|)
    + region + dictData
    + Footer(c.crc(dictData), docs, dictStart, |dictData|, |region|)
  }

  /** `Writer.Write`: append as the entries go by, then patch the header.  A file past
      the 63-bit offsets of the file system cannot be written. */
  method WriteSegment(c: Codec, entries: seq<TermEntry>) returns (r: Result<bytes>)
    ensures entries == [] ==> r == Err(EmptySegment)
    ensures entries != [] && |SegmentBytes(c, entries)| < INT64 ==> r == Ok(SegmentBytes(c, entries))
    ensures entries != [] && |SegmentBytes(c, entries)| >= INT64 ==> r == Err(TooLarge)
  {
    if entries == [] { return Err(EmptySegment); }
    var headerBytes := StartHeader(|entries|);
    var file: bytes := headerBytes[..];
    ghost var early := file;
    var postingsStart := |file|;
    var dict, docIDs;
    file, dict, docIDs := AppendPostings(c, entries, file);
    var postingsSize := |file| - postingsStart;
    var dictStart := |file|;
    var dictData := c.encDict(dict);
    var footer := Footer(c.crc(dictData), |docIDs|, dictStart, |dictData|, postingsSize);
    file := file + dictData + footer;
    FinishHeader(headerBytes, |entries|, |docIDs|, dictStart, |dictData|, postingsStart, postingsSize);
    HeaderSwapped(early, Region(c, entries), dictData, footer, headerBytes[..]);
    file := headerBytes[..] + file[HEADER_SIZE..];
    if |file| >= INT64 { return Err(TooLarge); }
    r := Ok(file);
  }

  lemma HeaderSwapped(early: bytes, region: bytes, dictData: bytes, footer: bytes, final: bytes)
    requires |early| == HEADER_SIZE
    ensures final + (early + region + dictData + footer)[HEADER_SIZE..] == final + region + dictData + footer
  {
    assert (early + region + dictData + footer)[HEADER_SIZE..] == region + dictData + footer;
  }

  method StartHeader(termCount: nat) returns (a: array<byte>)
    ensures fresh(a) && a[..] == EarlyHeader(termCount)
  {
    a := new byte[HEADER_SIZE](_ => 0);
    assert a[..] == Zeros(HEADER_SIZE);
    PutAll(a, EarlyFields(termCount));
  }

  method FinishHeader(a: array<byte>, ghost termCount: nat, docCount: nat, dictStart: nat, dictSize: nat,
                      postStart: nat, postSize: nat)
    requires a[..] == EarlyHeader(termCount)
    modifies a
    ensures a[..] == FinalHeader(termCount, docCount, dictStart, dictSize, postStart, postSize)
  {
    PutAll(a, LateFields(docCount, dictStart, dictSize, postStart, postSize));
  }

  /** The entry loop: postings go to the file, offsets to the dictionary, ids to a set. */
  method AppendPostings(c: Codec, entries: seq<TermEntry>, start: bytes)
    returns (file: bytes, dict: seq<DictEntry>, docIDs: set<string>)
    ensures file == start + Region(c, entries)
    ensures dict == Dict(c, entries) && docIDs == DocIDs(entries)
  {
    file, dict, docIDs := start, [], {};
    for i := 0 to |entries|
      invariant file == start + Region(c, entries[..i])
      invariant dict == Dict(c, entries[..i])
      invariant docIDs == DocIDs(entries[..i])
    {
      var entry := entries[i];
      RegionNext(c, entries, i);
      DocIDsNext(entries, i);
      var postingsData := c.encPostings(entry.postings);
      dict := dict + [DictEntry(entry.term, |file| - |start|, |postingsData|, |entry.postings|)];
      Appended(start, Region(c, entries[..i]), postingsData);
      file := file + postingsData;
      docIDs := docIDs + set p | p in entry.postings :: p.docID;
    }
    assert entries[..|entries|] == entries;
  }

  lemma Appended(a: bytes, b: bytes, d: bytes)
    ensures a + b + d == a + (b + d)
  {
  }

  lemma RegionNext(c: Codec, entries: seq<TermEntry>, i: nat)
    requires i < |entries|
    ensures Region(c, entries[..i + 1]) == Region(c, entries[..i]) + c.encPostings(entries[i].postings)
    ensures Dict(c, entries[..i + 1]) == Dict(c, entries[..i])
              + [DictEntry(entries[i].term, |Region(c, entries[..i])|, |c.encPostings(entries[i].postings)|,
                           |entries[i].postings|)]
  {
    assert entries[..i + 1][..i] == entries[..i];
  }

  lemma DocIDsNext(entries: seq<TermEntry>, i: nat)
    requires i < |entries|
    ensures DocIDs(entries[..i + 1]) == DocIDs(entries[..i]) + set p | p in entries[i].postings :: p.docID
  {
    var a, b := DocIDs(entries[..i + 1]), DocIDs(entries[..i]) + set p | p in entries[i].postings :: p.docID;
    forall d ensures d in a <==> d in b {
      if d in a {
        var e, p :| e in entries[..i + 1] && p in e.postings && p.docID == d;
        assert e in entries[..i] || e == entries[i];
      }
      if d in b && d !in DocIDs(entries[..i]) {
        assert entries[i] in entries[..i + 1];
      }
    }
  }

  // ---- The reader ----

  function ReadAt(file: bytes, at: int, n: int): Result<bytes> {
    if n < 0 then Err(Panic)
    else if at < 0 || at + n > |file| then Err(ReadFailed)
    else Ok(file[at..at + n])
  }

  function DecodeHeader(b: bytes): Header
    requires |b| == HEADER_SIZE
  {
    Header(FromLE(b[4..8]), FromLE(b[8..12]), FromLE(b[12..16]),
           AsInt64(FromLE(b[16..24])), AsInt64(FromLE(b[24..32])),
           AsInt64(FromLE(b[32..40])), AsInt64(FromLE(b[40..48])))
  }

  function OpenReader(c: Codec, name: string, file: bytes): Result<Reader> {
    if |file| < HEADER_SIZE then Err(ReadFailed)
    else if FromLE(file[0..4]) != MAGIC then Err(BadMagic)
    else
      var header := DecodeHeader(file[..HEADER_SIZE]);
      match ReadAt(file, header.dictOffset, header.dictSize)
      case Err(e) => Err(e)
      case Ok(dictBytes) =>
        match c.decDict(dictBytes)
        case None => Err(BadJSON)
        case Some(dict) => Ok(Reader(name, file, header, dict, header.postOffset))
  }

  /** Position of the first dictionary entry for `term`; |dict| when there is none. */
  function IndexOf(dict: seq<DictEntry>, term: string): (k: nat)
    ensures k <= |dict|
    ensures k < |dict| ==> dict[k].term == term
    ensures forall j :: 0 <= j < k ==> dict[j].term != term
  {
    if dict == [] then 0
    else if dict[0].term == term then 0
    else 1 + IndexOf(dict[1..], term)
  }

  function ReadPostings(c: Codec, r: Reader, e: DictEntry): Result<PostingList> {
    match ReadAt(r.file, r.postBase + e.postOffset, e.postLen)
    case Err(x) => Err(x)
    case Ok(b) =>
      match c.decPostings(b)
      case None => Err(BadJSON)
      case Some(ps) => Ok(ps)
  }

  /** `sort.Search` between `i` and `j`: halving, whatever the predicate. */
  function SortSearch(f: nat -> bool, i: nat, j: nat): (k: nat)
    requires i <= j
    ensures i <= k <= j
    decreases j - i
  {
    if i == j then i
    else
      var h := i + (j - i) / 2;
      if !f(h) then SortSearch(f, h + 1, j) else SortSearch(f, i, h)
  }

  /** With a predicate that stays true once it is, the search ends where it becomes true. */
  lemma {:induction false} SortSearchFirst(f: nat -> bool, n: nat, i: nat, j: nat)
    requires i <= j <= n && forall x: nat, y: nat :: Stays(f, x, y)
    requires (forall m: nat :: m < i ==> !f(m)) && (forall m: nat :: j <= m < n ==> f(m))
    ensures var k := SortSearch(f, i, j); (forall m: nat :: m < k ==> !f(m)) && forall m: nat :: k <= m < n ==> f(m)
    decreases j - i
  {
    if i < j {
      var h := i + (j - i) / 2;
      if !f(h) {
        forall m: nat | m <= h ensures !f(m) { assert Stays(f, m, h); }
        SortSearchFirst(f, n, h + 1, j);
      } else {
        forall m: nat | h <= m ensures f(m) { assert Stays(f, h, m); }
        SortSearchFirst(f, n, i, h);
      }
    }
  }

  ghost predicate Stays(f: nat -> bool, x: nat, y: nat) { x <= y && f(x) ==> f(y) }

  /** The predicate that `Reader.Search` searches with. */
  function AtLeast(dict: seq<DictEntry>, term: string): nat -> bool {
    (m: nat) => m < |dict| ==> !Less(dict[m].term, term)
  }

  function Bisect(dict: seq<DictEntry>, term: string): (k: nat)
    ensures k <= |dict|
  {
    SortSearch(AtLeast(dict, term), 0, |dict|)
  }

  /** The postings the reader finds for a term. */
  function Lookup(c: Codec, r: Reader, term: string): Result<PostingList> {
    var k := Bisect(r.dict, term);
    if k >= |r.dict| || r.dict[k].term != term then Ok([]) else ReadPostings(c, r, r.dict[k])
  }

  /** One halving. */
  lemma Halve(f: nat -> bool, i: nat, j: nat, h: nat)
    requires i < j && h == i + (j - i) / 2
    ensures i <= h < j && SortSearch(f, i, j) == if !f(h) then SortSearch(f, h + 1, j) else SortSearch(f, i, h)
  {
  }

  /** The loop of `sort.Search`. */
  method SearchFirst(n: nat, f: nat -> bool) returns (i: nat)
    ensures i == SortSearch(f, 0, n)
  {
    ghost var k := SortSearch(f, 0, n);
    var j := n;
    i := 0;
    while i < j
      invariant i <= j <= n && SortSearch(f, i, j) == k
    {
      var h := i + (j - i) / 2;
      Halve(f, i, j, h);
      if !f(h) {
        i := h + 1;
      } else {
        j := h;
      }
    }
  }

  /** `Reader.Search`. */
  method SearchReader(c: Codec, r: Reader, term: string) returns (res: Result<PostingList>)
    ensures res == Lookup(c, r, term)
  {
    var i := SearchFirst(|r.dict|, AtLeast(r.dict, term));
    if i >= |r.dict| || r.dict[i].term != term { return Ok([]); }
    res := ReadPostings(c, r, r.dict[i]);
  }

  /** Entries of a sorted dictionary that are not below the term stay so. */
  lemma AtLeastStays(dict: seq<DictEntry>, term: string, x: nat, y: nat)
    requires KeySorted(DictKey, dict) && x <= y && AtLeast(dict, term)(x)
    ensures AtLeast(dict, term)(y)
  {
    if x < y < |dict| {
      assert Less(DictKey(dict[x]), DictKey(dict[y]));
      if Less(dict[y].term, term) { LessTransitive(dict[x].term, dict[y].term, term); }
    }
  }

  /** On a sorted dictionary binary search finds what a scan from the front finds. */
  lemma BisectIsScan(dict: seq<DictEntry>, term: string)
    requires KeySorted(DictKey, dict)
    ensures var k := Bisect(dict, term);
            IndexOf(dict, term) == if k < |dict| && dict[k].term == term then k else |dict|
  {
    var f := AtLeast(dict, term);
    forall x: nat, y: nat ensures Stays(f, x, y) {
      if x <= y && f(x) { AtLeastStays(dict, term, x, y); }
    }
    SortSearchFirst(f, |dict|, 0, |dict|);
    var k := Bisect(dict, term);
    forall m | 0 <= m < k ensures Less(dict[m].term, term) { assert !f(m); }
    forall m | k <= m < |dict| ensures !Less(dict[m].term, term) { assert f(m); }
    FirstNotLess(dict, k, term);
  }

  lemma FirstNotLess(dict: seq<DictEntry>, i: nat, term: string)
    requires KeySorted(DictKey, dict) && i <= |dict|
    requires forall m :: 0 <= m < i ==> Less(dict[m].term, term)
    requires forall m :: i <= m < |dict| ==> !Less(dict[m].term, term)
    ensures IndexOf(dict, term) == if i < |dict| && dict[i].term == term then i else |dict|
  {
    var k := IndexOf(dict, term);
    LessIrreflexive(term);
  }

  // ---- Round trip ----

  lemma EarlyFieldReads(n: nat, late: seq<Field>, k: nat)
    requires k < 3 && Fit(HEADER_SIZE, late)
    requires forall i :: 0 <= i < |late| ==> late[i].at >= 12
    ensures var f := EarlyFields(n)[k];
            PutFields(EarlyHeader(n), late)[f.at..f.at + f.width] == ToLE(f.value, f.width)
  {
    FieldReads(Zeros(HEADER_SIZE), EarlyFields(n), k);
    var f := EarlyFields(n)[k];
    Untouched(EarlyHeader(n), late, f.at, f.at + f.width);
  }

  lemma HeaderRoundTrip(n: nat, docs: nat, ds: nat, dz: nat, ps: nat, pz: nat)
    requires ds < INT64 && dz < INT64 && ps < INT64 && pz < INT64
    ensures var h := FinalHeader(n, docs, ds, dz, ps, pz);
            FromLE(h[0..4]) == MAGIC &&
            DecodeHeader(h) == Header(FORMAT_VERSION, n % UINT32, docs % UINT32, ds, dz, ps, pz)
  {
    EarlyHalf(n, docs, ds, dz, ps, pz);
    LateHalf(n, docs, ds, dz, ps, pz);
  }

  lemma EarlyHalf(n: nat, docs: nat, ds: nat, dz: nat, ps: nat, pz: nat)
    requires ds < INT64 && dz < INT64 && ps < INT64 && pz < INT64
    ensures var h := FinalHeader(n, docs, ds, dz, ps, pz);
            FromLE(h[0..4]) == MAGIC && FromLE(h[4..8]) == FORMAT_VERSION && FromLE(h[8..12]) == n % UINT32
  {
    WidthBounds();
    var late := LateFields(docs, ds, dz, ps, pz);
    EarlyFieldReads(n, late, 0);
    EarlyFieldReads(n, late, 1);
    EarlyFieldReads(n, late, 2);
    FromToLE(MAGIC, 4);
    FromToLE(FORMAT_VERSION, 4);
    FromToLE(n % UINT32, 4);
  }

  lemma StoredReads(s: bytes, fields: seq<Field>, k: nat)
    requires Fit(|s|, fields) && k < |fields| && fields[k].value < Pow256(fields[k].width)
    requires forall i :: k < i < |fields| ==> Apart(fields[i], fields[k].at, fields[k].at + fields[k].width)
    ensures FromLE(PutFields(s, fields)[fields[k].at..fields[k].at + fields[k].width]) == fields[k].value
  {
    FieldReads(s, fields, k);
    FromToLE(fields[k].value, fields[k].width);
  }

  lemma LateHalf(n: nat, docs: nat, ds: nat, dz: nat, ps: nat, pz: nat)
    requires ds < INT64 && dz < INT64 && ps < INT64 && pz < INT64
    ensures var h := FinalHeader(n, docs, ds, dz, ps, pz);
            DecodeHeader(h).docCount == docs % UINT32
            && DecodeHeader(h).dictOffset == ds && DecodeHeader(h).dictSize == dz
            && DecodeHeader(h).postOffset == ps && DecodeHeader(h).postSize == pz
  {
    LateFieldReads(EarlyHeader(n), docs, ds, dz, ps, pz);
  }

  lemma LateFieldReads(early: bytes, docs: nat, ds: nat, dz: nat, ps: nat, pz: nat)
    requires |early| == HEADER_SIZE && ds < INT64 && dz < INT64 && ps < INT64 && pz < INT64
    ensures var h := PutFields(early, LateFields(docs, ds, dz, ps, pz));
            && FromLE(h[12..16]) == docs % UINT32 && FromLE(h[16..24]) == ds && FromLE(h[24..32]) == dz
            && FromLE(h[32..40]) == ps && FromLE(h[40..48]) == pz
  {
    WidthBounds();
    var late := LateFields(docs, ds, dz, ps, pz);
    LateRead(early, late, 0);
    LateRead(early, late, 1);
    LateRead(early, late, 2);
    LateRead(early, late, 3);
    LateRead(early, late, 4);
  }

  /** The five fields are as wide as their distance. */
  ghost predicate LateShape(fields: seq<Field>) {
    && |fields| == 5 && fields[0].at == 12 && fields[0].width == 4
    && forall i :: 1 <= i < 5 ==> fields[i].at == 8 + 8 * i && fields[i].width == 8
  }

  lemma LateRead(early: bytes, fields: seq<Field>, k: nat)
    requires |early| == HEADER_SIZE && LateShape(fields) && k < 5 && fields[k].value < Pow256(fields[k].width)
    ensures Fit(|early|, fields)
    ensures FromLE(PutFields(early, fields)[fields[k].at..fields[k].at + fields[k].width]) == fields[k].value
  {
    StoredReads(early, fields, k);
  }

  // ---- Any reader, damaged ones included ----

  /** An entry's bytes lie in the file. */
  predicate Inside(r: Reader, e: DictEntry) {
    e.postLen >= 0 && r.postBase + e.postOffset >= 0 && r.postBase + e.postOffset + e.postLen <= |r.file|
  }

  /** On any sorted dictionary and whatever the file holds: a term without an entry has no
      postings; one with an entry has what its bytes decode to, and an error when they lie
      outside the file or do not decode. */
  lemma LookupOutcome(c: Codec, r: Reader, k: nat, term: string)
    requires KeySorted(DictKey, r.dict) && k < |r.dict|
    ensures (forall e :: e in r.dict ==> e.term != term) ==> Lookup(c, r, term) == Ok([])
    ensures var e := r.dict[k];
            && (!Inside(r, e) ==> Lookup(c, r, e.term).Err?)
            && (Inside(r, e) ==>
                  var b := r.file[r.postBase + e.postOffset..r.postBase + e.postOffset + e.postLen];
                  match c.decPostings(b)
                  case Some(ps) => Lookup(c, r, e.term) == Ok(ps)
                  case None => Lookup(c, r, e.term) == Err(BadJSON))
  {
    BisectIsScan(r.dict, term);
    BisectIsScan(r.dict, r.dict[k].term);
    var i := IndexOf(r.dict, r.dict[k].term);
    OneEntryPerTerm(r.dict, i, k);
  }

  lemma OneEntryPerTerm(dict: seq<DictEntry>, i: nat, k: nat)
    requires KeySorted(DictKey, dict) && i <= k < |dict| && dict[i].term == dict[k].term
    ensures i == k
  {
    LessIrreflexive(dict[k].term);
    assert i < k ==> Less(DictKey(dict[i]), DictKey(dict[k]));
  }

  // ---- The layout in numbers ----

  lemma MagicBytes(b: bytes)
    requires |b| == 4
    ensures FromLE(b) == MAGIC <==> b == [0x58, 0x44, 0x50, 0x53]
  {
    ToFromLE(b);
    MagicLE();
  }

  lemma MagicLE()
    ensures ToLE(MAGIC, 4) == [0x58, 0x44, 0x50, 0x53] && FromLE([0x58, 0x44, 0x50, 0x53]) == MAGIC
  {
    WidthBounds();
    assert ToLE(0x53, 1) == [0x53];
    assert ToLE(0x5350, 2) == [0x50] + ToLE(0x53, 1);
    assert ToLE(0x535044, 3) == [0x44] + ToLE(0x5350, 2);
    assert ToLE(MAGIC, 4) == [0x58] + ToLE(0x535044, 3);
    FromToLE(MAGIC, 4);
  }

  lemma EarlySlices(n: nat, docs: nat, ds: nat, dz: nat, ps: nat, pz: nat)
    ensures var h := FinalHeader(n, docs, ds, dz, ps, pz);
            h[0..4] == ToLE(MAGIC, 4) && h[4..8] == ToLE(1, 4) && h[8..12] == ToLE(n % UINT32, 4)
  {
    var late := LateFields(docs, ds, dz, ps, pz);
    EarlyFieldReads(n, late, 0);
    EarlyFieldReads(n, late, 1);
    EarlyFieldReads(n, late, 2);
  }

  lemma SliceFrom(b: bytes, x: nat, k: nat)
    requires |b| == k && FromLE(b) == x
    ensures b == ToLE(x, k)
  {
    ToFromLE(b);
  }

  lemma LateSlices(n: nat, docs: nat, ds: nat, dz: nat, ps: nat, pz: nat)
    requires ds < INT64 && dz < INT64 && ps < INT64 && pz < INT64
    ensures var h := FinalHeader(n, docs, ds, dz, ps, pz);
            && h[12..16] == ToLE(docs % UINT32, 4) && h[16..24] == ToLE(ds, 8) && h[24..32] == ToLE(dz, 8)
            && h[32..40] == ToLE(ps, 8) && h[40..48] == ToLE(pz, 8)
  {
    LateFieldReads(EarlyHeader(n), docs, ds, dz, ps, pz);
    var h := FinalHeader(n, docs, ds, dz, ps, pz);
    SliceFrom(h[12..16], docs % UINT32, 4);
    SliceFrom(h[16..24], ds, 8);
    SliceFrom(h[24..32], dz, 8);
    SliceFrom(h[32..40], ps, 8);
    SliceFrom(h[40..48], pz, 8);
  }

  lemma ZeroTail(n: nat, docs: nat, ds: nat, dz: nat, ps: nat, pz: nat)
    ensures FinalHeader(n, docs, ds, dz, ps, pz)[48..64] == Zeros(16)
  {
    Untouched(EarlyHeader(n), LateFields(docs, ds, dz, ps, pz), 48, 64);
    Untouched(Zeros(HEADER_SIZE), EarlyFields(n), 48, 64);
  }

  /** The header on disk: magic number, version 1, counts, and the places and sizes of the
      dictionary and the postings, all little-endian, then 16 zero bytes. */
  lemma HeaderLayout(n: nat, docs: nat, ds: nat, dz: nat, ps: nat, pz: nat)
    requires ds < INT64 && dz < INT64 && ps < INT64 && pz < INT64
    ensures FinalHeader(n, docs, ds, dz, ps, pz)
         == [0x58, 0x44, 0x50, 0x53] + [1, 0, 0, 0] + ToLE(n % UINT32, 4) + ToLE(docs % UINT32, 4)
            + (ToLE(ds, 8) + ToLE(dz, 8) + ToLE(ps, 8) + ToLE(pz, 8)) + Zeros(16)
  {
    var h := FinalHeader(n, docs, ds, dz, ps, pz);
    EarlySlices(n, docs, ds, dz, ps, pz);
    LateSlices(n, docs, ds, dz, ps, pz);
    ZeroTail(n, docs, ds, dz, ps, pz);
    MagicLE();
    OneLE();
    Sliced(h);
  }

  lemma OneLE()
    ensures ToLE(1, 4) == [1, 0, 0, 0]
  {
    assert ToLE(0, 1) == [0];
    assert ToLE(0, 2) == [0] + ToLE(0, 1);
    assert ToLE(0, 3) == [0] + ToLE(0, 2);
  }

  lemma Sliced(h: bytes)
    requires |h| == 64
    ensures h == h[0..4] + h[4..8] + h[8..12] + h[12..16]
              + (h[16..24] + h[24..32] + h[32..40] + h[40..48]) + h[48..64]
  {
  }

  /** The last 32 bytes carry the checksum of the dictionary bytes and repeat the header. */
  ghost predicate Repeats(c: Codec, file: bytes, h: Header) {
    && |file| == 64 + h.postSize + h.dictSize + 32 && 0 <= h.dictSize
    && 64 <= h.dictOffset && h.dictOffset + h.dictSize == |file| - 32
    && var foot := file[|file| - 32..];
       && FromLE(foot[0..4]) == c.crc(file[h.dictOffset..h.dictOffset + h.dictSize]) % UINT32
       && FromLE(foot[4..8]) == h.docCount && FromLE(foot[8..16]) == h.dictOffset
       && FromLE(foot[16..24]) == h.dictSize && FromLE(foot[24..32]) == h.postSize
  }

  lemma FooterRepeatsHeader(c: Codec, name: string, entries: seq<TermEntry>)
    requires Lossless(c) && |SegmentBytes(c, entries)| < INT64
    ensures OpenReader(c, name, SegmentBytes(c, entries)).Ok?
    ensures Repeats(c, SegmentBytes(c, entries), OpenReader(c, name, SegmentBytes(c, entries)).value.header)
  {
    WrittenOpens(c, name, entries);
    var region, dictData := Region(c, entries), c.encDict(Dict(c, entries));
    AssembledRepeats(c, region, dictData, |entries|, |DocIDs(entries)|);
  }

  lemma AssembledRepeats(c: Codec, region: bytes, dictData: bytes, n: nat, docs: nat)
    requires HEADER_SIZE + |region| + |dictData| < INT64
    ensures var ds := HEADER_SIZE + |region|;
            var file := FinalHeader(n, docs, ds, |dictData|, HEADER_SIZE, |region|) + region + dictData
                        + Footer(c.crc(dictData), docs, ds, |dictData|, |region|);
            Repeats(c, file, Header(FORMAT_VERSION, n % UINT32, docs % UINT32, ds, |dictData|, HEADER_SIZE, |region|))
  {
    var ds := HEADER_SIZE + |region|;
    FooterReads(c.crc(dictData), docs, ds, |dictData|, |region|);
    FourParts(FinalHeader(n, docs, ds, |dictData|, HEADER_SIZE, |region|), region, dictData,
              Footer(c.crc(dictData), docs, ds, |dictData|, |region|));
  }

  lemma FourParts(head: bytes, region: bytes, dictData: bytes, foot: bytes)
    requires |head| == HEADER_SIZE && |foot| == 32
    ensures var file := head + region + dictData + foot;
            && file[|file| - 32..] == foot
            && file[HEADER_SIZE + |region|..HEADER_SIZE + |region| + |dictData|] == dictData
  {
  }

  lemma FooterReads(crc: nat, docs: nat, ds: nat, dz: nat, pz: nat)
    requires ds < INT64 && dz < INT64 && pz < INT64
    ensures var foot := Footer(crc, docs, ds, dz, pz);
            && |foot| == 32 && FromLE(foot[0..4]) == crc % UINT32 && FromLE(foot[4..8]) == docs % UINT32
            && FromLE(foot[8..16]) == ds && FromLE(foot[16..24]) == dz && FromLE(foot[24..32]) == pz
  {
    WidthBounds();
    FromToLEMod(crc, 4);
    FromToLE(docs % UINT32, 4);
    FromToLE(ds, 8);
    FromToLE(dz, 8);
    FromToLE(pz, 8);
    FiveParts(ToLE(crc, 4), ToLE(docs % UINT32, 4), ToLE(ds, 8), ToLE(dz, 8), ToLE(pz, 8));
  }

  lemma FiveParts(a: bytes, b: bytes, c: bytes, d: bytes, e: bytes)
    requires |a| == |b| == 4 && |c| == |d| == |e| == 8
    ensures var s := a + b + c + d + e;
            s[0..4] == a && s[4..8] == b && s[8..16] == c && s[16..24] == d && s[24..32] == e
  {
  }

  /** A file opens if and only if it holds a header, starts with the magic bytes, and its
      dictionary lies in the file and decodes; too short a file and a wrong start have their
      own errors. */
  lemma OpensIff(c: Codec, name: string, file: bytes)
    ensures |file| < 64 ==> OpenReader(c, name, file) == Err(ReadFailed)
    ensures |file| >= 64 && file[0..4] != [0x58, 0x44, 0x50, 0x53] ==> OpenReader(c, name, file) == Err(BadMagic)
    ensures |file| >= 64 ==>
              var at, size := AsInt64(FromLE(file[16..24])), AsInt64(FromLE(file[24..32]));
              OpenReader(c, name, file).Ok? <==>
                file[0..4] == [0x58, 0x44, 0x50, 0x53] && at >= 0 && size >= 0 && at + size <= |file|
                && c.decDict(file[at..at + size]).Some?
  {
    if |file| >= 64 {
      MagicBytes(file[0..4]);
      assert file[..64][16..24] == file[16..24] && file[..64][24..32] == file[24..32];
    }
  }

  /** Each dictionary entry points at its own encoded list inside the region. */
  lemma {:induction false} RegionSlice(c: Codec, entries: seq<TermEntry>, i: nat)
    requires i < |entries|
    ensures var e := Dict(c, entries)[i];
            && 0 <= e.postOffset && 0 <= e.postLen && e.postOffset + e.postLen <= |Region(c, entries)|
            && Region(c, entries)[e.postOffset..e.postOffset + e.postLen] == c.encPostings(entries[i].postings)
            && e.docFreq == |entries[i].postings|
    decreases |entries|
  {
    var n := |entries| - 1;
    var before := Region(c, entries[..n]);
    if i < n {
      RegionSlice(c, entries[..n], i);
      var e := Dict(c, entries)[i];
      assert e == Dict(c, entries[..n])[i];
      SliceBefore(before, c.encPostings(entries[n].postings), e.postOffset, e.postOffset + e.postLen);
    } else {
      assert Dict(c, entries)[n].postOffset == |before|;
      SliceAtEnd(before, c.encPostings(entries[n].postings));
    }
  }

  lemma SliceBefore(a: bytes, b: bytes, from: nat, to: nat)
    requires from <= to <= |a|
    ensures (a + b)[from..to] == a[from..to]
  {
  }

  lemma SliceAtEnd(a: bytes, b: bytes)
    ensures (a + b)[|a|..|a| + |b|] == b
  {
  }

  /** Posting slices tile the region: the first starts at 0, each next one starts where
      the previous ends, and the last ends with the region. */
  lemma {:induction false} SlicesTile(c: Codec, entries: seq<TermEntry>, i: nat)
    requires i < |entries|
    ensures var d := Dict(c, entries);
            && (i == 0 ==> d[i].postOffset == 0)
            && d[i].postOffset + d[i].postLen == if i + 1 < |d| then d[i + 1].postOffset else |Region(c, entries)|
    decreases |entries|
  {
    var n := |entries| - 1;
    if i < n {
      SlicesTile(c, entries[..n], i);
      assert Dict(c, entries)[i] == Dict(c, entries[..n])[i];
      assert Dict(c, entries)[n].postOffset == |Region(c, entries[..n])|;
      if i + 1 < n { assert Dict(c, entries)[i + 1] == Dict(c, entries[..n])[i + 1]; }
    }
  }

  /** The postings an entry list holds for a term. */
  ghost predicate Holds(entries: seq<TermEntry>, term: string, ps: PostingList) {
    (exists e :: e in entries && e.term == term && e.postings == ps)
    || (ps == [] && forall e :: e in entries ==> e.term != term)
  }

  ghost predicate OpensAs(c: Codec, r: Reader, name: string, entries: seq<TermEntry>) {
    && r.name == name && r.dict == Dict(c, entries) && r.postBase == HEADER_SIZE
    && |r.file| >= HEADER_SIZE + |Region(c, entries)|
    && r.file[HEADER_SIZE..HEADER_SIZE + |Region(c, entries)|] == Region(c, entries)
    && r.header == Header(FORMAT_VERSION, |entries| % UINT32, |DocIDs(entries)| % UINT32,
                          HEADER_SIZE + |Region(c, entries)|, |c.encDict(Dict(c, entries))|,
                          HEADER_SIZE, |Region(c, entries)|)
  }

  /** What was written opens, with every header field and the dictionary intact. */
  lemma WrittenOpens(c: Codec, name: string, entries: seq<TermEntry>)
    requires Lossless(c) && |SegmentBytes(c, entries)| < INT64
    ensures OpenReader(c, name, SegmentBytes(c, entries)).Ok?
    ensures OpensAs(c, OpenReader(c, name, SegmentBytes(c, entries)).value, name, entries)
  {
    var region, dictData := Region(c, entries), c.encDict(Dict(c, entries));
    var docs, ds := |DocIDs(entries)|, HEADER_SIZE + |region|;
    var h := FinalHeader(|entries|, docs, ds, |dictData|, HEADER_SIZE, |region|);
    var footer := Footer(c.crc(dictData), docs, ds, |dictData|, |region|);
    HeaderRoundTrip(|entries|, docs, ds, |dictData|, HEADER_SIZE, |region|);
    OpenAssembled(c, name, h, region, dictData, footer);
  }

  /** Opening a file put together from its four parts. */
  lemma OpenAssembled(c: Codec, name: string, h: bytes, region: bytes, dictData: bytes, footer: bytes)
    requires |h| == HEADER_SIZE && FromLE(h[0..4]) == MAGIC
    requires DecodeHeader(h).dictOffset == HEADER_SIZE + |region| && DecodeHeader(h).dictSize == |dictData|
    requires c.decDict(dictData).Some?
    ensures var file := h + region + dictData + footer;
            && OpenReader(c, name, file)
               == Ok(Reader(name, file, DecodeHeader(h), c.decDict(dictData).value, DecodeHeader(h).postOffset))
            && |file| >= HEADER_SIZE + |region| && file[HEADER_SIZE..HEADER_SIZE + |region|] == region
  {
    var file, ds := h + region + dictData + footer, HEADER_SIZE + |region|;
    assert file[..HEADER_SIZE] == h;
    assert file[0..4] == h[0..4];
    assert file[ds..ds + |dictData|] == dictData;
  }

  /** Round trip: searching an opened segment returns exactly the term's postings, and
      nothing for a term the segment does not hold. */
  lemma SegmentRoundTrip(c: Codec, name: string, entries: seq<TermEntry>, r: Reader, term: string)
    requires Lossless(c) && KeySorted(TermKey, entries)
    requires OpensAs(c, r, name, entries)
    ensures KeySorted(DictKey, r.dict)
    ensures Lookup(c, r, term).Ok? && Holds(entries, term, Lookup(c, r, term).value)
  {
    DictSorted(c, entries);
    BisectIsScan(r.dict, term);
    var k := IndexOf(r.dict, term);
    if k < |entries| {
      ReadBack(c, r, name, entries, k);
      assert entries[k] in entries;
    } else {
      forall e | e in entries ensures e.term != term {
        var i :| 0 <= i < |entries| && entries[i] == e;
        assert r.dict[i].term == e.term;
      }
    }
  }

  lemma DictSorted(c: Codec, entries: seq<TermEntry>)
    requires KeySorted(TermKey, entries)
    ensures KeySorted(DictKey, Dict(c, entries))
  {
    var d := Dict(c, entries);
    forall i, j | 0 <= i < j < |d| ensures Less(DictKey(d[i]), DictKey(d[j])) {
      assert Less(TermKey(entries[i]), TermKey(entries[j]));
    }
  }

  lemma ReadBack(c: Codec, r: Reader, name: string, entries: seq<TermEntry>, k: nat)
    requires Lossless(c) && OpensAs(c, r, name, entries) && k < |entries|
    ensures ReadPostings(c, r, r.dict[k]) == Ok(entries[k].postings)
  {
    RegionSlice(c, entries, k);
    var e := r.dict[k];
    SliceOfSlice(r.file, HEADER_SIZE, HEADER_SIZE + |Region(c, entries)|, e.postOffset, e.postOffset + e.postLen);
  }

  lemma SliceOfSlice(s: bytes, i: nat, j: nat, from: nat, to: nat)
    requires i <= j <= |s| && from <= to <= j - i
    ensures s[i..j][from..to] == s[i + from..i + to]
  {
    var a, b := s[i..j][from..to], s[i + from..i + to];
    assert |a| == |b|;
    forall k | 0 <= k < |a| ensures a[k] == b[k] {
      assert a[k] == s[i..j][from + k] == s[i + (from + k)];
    }
  }

  /** Two answers that an entry list holds for a term agree. */
  lemma HoldsUnique(entries: seq<TermEntry>, term: string, a: PostingList, b: PostingList)
    requires KeySorted(TermKey, entries) && Holds(entries, term, a) && Holds(entries, term, b)
    ensures a == b
  {
    forall x, y | x in entries && y in entries && x.term == y.term ensures x == y {
      var i :| 0 <= i < |entries| && entries[i] == x;
      var j :| 0 <= j < |entries| && entries[j] == y;
      LessIrreflexive(x.term);
    }
  }
}
