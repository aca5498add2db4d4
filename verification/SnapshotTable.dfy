/** Finding a recorded answer in a mapped snapshot: a binary search for the
    command, then the entries of that command. */
module SnapshotTable {
  import opened Wrappers

  type Byte = x: int | 0 <= x < 256

  type Bytes = seq<Byte>

  const U32 := 0x1_0000_0000

  const HEADER_BYTES := 64
  const ENTRY_BYTES := 320
  const MAX_ENTRIES := 8192
  const MAGIC: Bytes := [0x53, 0x51, 0x53, 0x48, 0x51, 0x53, 0x50, 0x31]
  const VERSION := 1

  // ---- Fixed-width fields

  /** A number cut to 32 bits. */
  function Truncated(n: nat): (r: nat)
    ensures r < U32 && r <= n && (n < U32 ==> r == n)
  {
    n % U32
  }

  function Le16(data: Bytes, i: nat): (n: nat)
    requires i + 2 <= |data|
    ensures n < 0x1_0000
  {
    var low: int, high: int := data[i], data[i + 1];
    low + 0x100 * high
  }

  function Le32(data: Bytes, i: nat): (n: nat)
    requires i + 4 <= |data|
    ensures n < U32
  {
    Le16(data, i) + 0x1_0000 * Le16(data, i + 2)
  }

  /** The value of 32 bits read as a signed number. */
  function Signed32(n: nat): (v: int)
    requires n < U32
    ensures -0x8000_0000 <= v < 0x8000_0000 && (v - n) % U32 == 0
  {
    if n < 0x8000_0000 then n else n - U32
  }

  // ---- Writing them

  function Put16(n: nat): (b: Bytes)
    requires n < 0x1_0000
    ensures |b| == 2
  {
    [n % 0x100, n / 0x100]
  }

  function Put32(n: nat): (b: Bytes)
    requires n < U32
    ensures |b| == 4
  {
    Put16(n % 0x1_0000) + Put16(n / 0x1_0000)
  }

  lemma PutLe16(n: nat, data: Bytes, i: nat)
    requires n < 0x1_0000 && i + 2 <= |data| && data[i..i + 2] == Put16(n)
    ensures Le16(data, i) == n
  {
    var b := data[i..i + 2];
    assert data[i] == b[0] && data[i + 1] == b[1];
  }

  /** A number is read back from its four bytes, low byte first. */
  lemma PutLe32(n: nat, data: Bytes, i: nat)
    requires n < U32 && i + 4 <= |data| && data[i..i + 4] == Put32(n)
    ensures Le32(data, i) == n
  {
    assert data[i..i + 2] == data[i..i + 4][..2] == Put16(n % 0x1_0000);
    assert data[i + 2..i + 4] == data[i..i + 4][2..] == Put16(n / 0x1_0000);
    PutLe16(n % 0x1_0000, data, i);
    PutLe16(n / 0x1_0000, data, i + 2);
  }

  lemma LePut16(data: Bytes, i: nat)
    requires i + 2 <= |data|
    ensures Put16(Le16(data, i)) == data[i..i + 2]
  {
    var low: int, high: int := data[i], data[i + 1];
    assert (low + 0x100 * high) % 0x100 == low && (low + 0x100 * high) / 0x100 == high;
  }

  lemma Halves(low: nat, high: nat)
    requires low < 0x1_0000
    ensures (low + 0x1_0000 * high) % 0x1_0000 == low && (low + 0x1_0000 * high) / 0x1_0000 == high
  {
  }

  lemma LePut32(data: Bytes, i: nat)
    requires i + 4 <= |data|
    ensures Put32(Le32(data, i)) == data[i..i + 4]
  {
    hide Le16, Put16;
    LePut16(data, i);
    LePut16(data, i + 2);
    Halves(Le16(data, i), Le16(data, i + 2));
    assert data[i..i + 4] == data[i..i + 2] + data[i + 2..i + 4];
  }

  /** The 32 bits of a signed number. */
  function Bits32(v: int): (n: nat)
    ensures n < U32
  {
    v % U32
  }

  lemma SignedBits(v: int)
    requires -0x8000_0000 <= v < 0x8000_0000
    ensures Signed32(Bits32(v)) == v
  {
  }

  lemma BitsSigned(n: nat)
    requires n < U32
    ensures Bits32(Signed32(n)) == n
  {
  }

  // ---- The order of keys

  /** The order of memcmp on strings of one length. */
  predicate Less(a: Bytes, b: Bytes)
    requires |a| == |b|
  {
    a != [] && (a[0] < b[0] || (a[0] == b[0] && Less(a[1..], b[1..])))
  }

  lemma {:induction false} LessTrichotomy(a: Bytes, b: Bytes)
    requires |a| == |b|
    ensures a == b || Less(a, b) || Less(b, a)
    ensures !(Less(a, b) && Less(b, a)) && !Less(a, a)
  {
    if a != [] {
      LessTrichotomy(a[1..], b[1..]);
      LessTrichotomy(a[1..], a[1..]);
      if a[0] == b[0] && a[1..] == b[1..] {
        assert a == [a[0]] + a[1..] && b == [b[0]] + b[1..];
      }
    }
  }

  /** The first byte where the strings differ decides. */
  lemma {:induction false} LessIsFirstDifference(a: Bytes, b: Bytes)
    requires |a| == |b|
    ensures Less(a, b) <==> exists k :: 0 <= k < |a| && a[..k] == b[..k] && a[k] < b[k]
  {
    if a != [] {
      LessIsFirstDifference(a[1..], b[1..]);
      if k :| 0 <= k < |a[1..]| && a[1..][..k] == b[1..][..k] && a[1..][k] < b[1..][k] {
        assert a[..k + 1] == [a[0]] + a[1..][..k] && b[..k + 1] == [b[0]] + b[1..][..k];
        assert a[0] == b[0] ==> a[..k + 1] == b[..k + 1] && a[k + 1] < b[k + 1];
      }
      if k :| 0 <= k < |a| && a[..k] == b[..k] && a[k] < b[k] {
        if k > 0 {
          assert a[0] == a[..k][0] == b[..k][0] == b[0];
          assert a[1..][..k - 1] == a[..k][1..] && b[1..][..k - 1] == b[..k][1..];
          assert a[1..][k - 1] < b[1..][k - 1];
        } else {
          assert a[..0] == b[..0];
        }
      }
      assert a[0] < b[0] ==> a[..0] == b[..0];
    }
  }

  lemma {:induction false} LessTransitive(a: Bytes, b: Bytes, c: Bytes)
    requires |a| == |b| == |c| && !Less(b, a) && Less(b, c)
    ensures Less(a, c)
  {
    LessTrichotomy(a, b);
    if a != b && a[0] == b[0] == c[0] {
      LessTrichotomy(a[1..], b[1..]);
      LessTransitive(a[1..], b[1..], c[1..]);
    }
  }

  // ---- The header

  datatype Header = Header(count: nat, payload: nat, total: nat)

  /** The entries and the payload lie one after the other in the data. */
  predicate Fits(data: Bytes, h: Header) {
    h.count <= MAX_ENTRIES && h.payload == HEADER_BYTES + h.count * ENTRY_BYTES && h.payload <= h.total <= |data|
  }

  /** The checks on the header's numbers, 32-bit arithmetic included. */
  predicate Sound(h: Header, size: nat, length: nat)
    ensures Sound(h, size, length) ==>
              && h.count <= MAX_ENTRIES && h.payload == HEADER_BYTES + h.count * ENTRY_BYTES
              && h.payload <= h.total <= length
  {
    && h.count <= MAX_ENTRIES && size == HEADER_BYTES && h.total == Truncated(length)
    && h.payload == Truncated(HEADER_BYTES + Truncated(h.count * ENTRY_BYTES)) && h.payload <= h.total
  }

  predicate Tagged(data: Bytes)
    requires |data| >= HEADER_BYTES
  {
    data[..8] == MAGIC && Le16(data, 8) == VERSION && Le16(data, 10) == ENTRY_BYTES
  }

  function ReadHeader(data: Bytes): (r: Option<Header>)
    ensures r.Some? ==> Fits(data, r.value)
  {
    if |data| < HEADER_BYTES || !Tagged(data) then None
    else
      var h := Header(Le32(data, 12), Le32(data, 20), Le32(data, 24));
      if Sound(h, Le32(data, 16), |data|) then Some(h) else None
  }

  /** The first bytes of a snapshot: the mark, the version, the sizes. */
  function HeaderBytes(h: Header): (b: Bytes)
    requires h.count < U32 && h.payload < U32 && h.total < U32
    ensures |b| == 28
  {
    BytesOf("SQSHQSP1") + (Put16(1) + Put16(320)) +
    (Put32(h.count) + Put32(64)) + (Put32(h.payload) + Put32(h.total))
  }

  function BytesOf(text: string): (b: Bytes)
    requires forall i :: 0 <= i < |text| ==> text[i] < 256 as char
    ensures |b| == |text|
  {
    seq(|text|, i requires 0 <= i < |text| => text[i] as int)
  }

  /** A header is accepted exactly if it starts the data so, and the counts and
      sizes are those of the data. */
  lemma HeaderExact(data: Bytes, h: Header)
    requires |data| < U32
    ensures ReadHeader(data) == Some(h) <==>
              && h.count <= 8192 && h.payload == 64 + h.count * 320 <= h.total == |data|
              && data[..28] == HeaderBytes(h)
  {
    hide Put32, Put16, Le32, Le16;
    if h.count <= 8192 && h.payload == 64 + h.count * 320 <= h.total == |data| {
      HeaderParts(h);
      if data[..28] == HeaderBytes(h) {
        HeaderRead(data, h);
      }
      if ReadHeader(data) == Some(h) {
        HeaderWritten(data, h);
      }
    }
  }

  lemma HeaderParts(h: Header)
    requires h.count < U32 && h.payload < U32 && h.total < U32
    ensures var b := HeaderBytes(h);
            && b[0..8] == MAGIC && b[8..10] == Put16(1) && b[10..12] == Put16(320) && b[12..16] == Put32(h.count)
            && b[16..20] == Put32(64) && b[20..24] == Put32(h.payload) && b[24..28] == Put32(h.total)
  {
    hide Put32, Put16;
    assert BytesOf("SQSHQSP1") == MAGIC;
  }

  lemma HeaderRead(data: Bytes, h: Header)
    requires h.count <= 8192 && h.payload == 64 + h.count * 320 <= h.total == |data| < U32
    requires data[..28] == HeaderBytes(h)
    ensures ReadHeader(data) == Some(h)
  {
    hide Put32, Put16, Le32, Le16, HeaderBytes;
    HeaderParts(h);
    var b := HeaderBytes(h);
    assert data[..28] == data[0..28];
    SliceOfSlice(data, 0, 28, 0, 8);
    SliceOfSlice(data, 0, 28, 8, 2);
    SliceOfSlice(data, 0, 28, 10, 2);
    SliceOfSlice(data, 0, 28, 12, 4);
    SliceOfSlice(data, 0, 28, 16, 4);
    SliceOfSlice(data, 0, 28, 20, 4);
    SliceOfSlice(data, 0, 28, 24, 4);
    PutLe16(1, data, 8);
    PutLe16(320, data, 10);
    PutLe32(h.count, data, 12);
    PutLe32(64, data, 16);
    PutLe32(h.payload, data, 20);
    PutLe32(h.total, data, 24);
    assert data[..8] == data[0..8];
  }

  lemma HeaderWritten(data: Bytes, h: Header)
    requires |data| < U32 && ReadHeader(data) == Some(h) && h.payload < U32 && h.total < U32
    ensures data[..28] == HeaderBytes(h)
  {
    hide Put32, Put16, Le32, Le16, HeaderBytes;
    HeaderParts(h);
    LePut16(data, 8);
    LePut16(data, 10);
    LePut32(data, 12);
    LePut32(data, 16);
    LePut32(data, 20);
    LePut32(data, 24);
    SevenParts(data[..28]);
    SevenParts(HeaderBytes(h));
    SliceOfSlice(data, 0, 28, 0, 8);
    SliceOfSlice(data, 0, 28, 8, 2);
    SliceOfSlice(data, 0, 28, 10, 2);
    SliceOfSlice(data, 0, 28, 12, 4);
    SliceOfSlice(data, 0, 28, 16, 4);
    SliceOfSlice(data, 0, 28, 20, 4);
    SliceOfSlice(data, 0, 28, 24, 4);
    assert data[..28] == data[0..28] && data[..8] == data[0..8];
  }

  lemma SevenParts(b: Bytes)
    requires |b| == 28
    ensures b == b[0..8] + b[8..10] + b[10..12] + b[12..16] + b[16..20] + b[20..24] + b[24..28]
  {
  }

  // ---- Entries

  /** Where an entry starts, as 32 bits compute it. */
  function EntryOffset(i: nat): nat {
    Truncated(HEADER_BYTES + Truncated(i * ENTRY_BYTES))
  }

  /** Nothing wraps: entries follow the header in steps of their size. */
  lemma EntryInside(data: Bytes, h: Header, i: nat)
    requires Fits(data, h) && i < h.count
    ensures EntryOffset(i) == HEADER_BYTES + i * ENTRY_BYTES && EntryOffset(i) + ENTRY_BYTES <= h.payload <= |data|
  {
  }

  function Field(data: Bytes, h: Header, i: nat, from: nat, to: nat): (field: Bytes)
    requires Fits(data, h) && i < h.count && from <= to <= ENTRY_BYTES
    ensures |field| == to - from
  {
    EntryInside(data, h, i);
    data[EntryOffset(i) + from..EntryOffset(i) + to]
  }

  function Key(data: Bytes, h: Header, i: nat): (key: Bytes)
    requires Fits(data, h) && i < h.count
    ensures |key| == 64
  {
    Field(data, h, i, 0, 64)
  }

  function Number(data: Bytes, h: Header, i: nat, from: nat): (n: nat)
    requires Fits(data, h) && i < h.count && from + 4 <= ENTRY_BYTES
    ensures n < U32
  {
    EntryInside(data, h, i);
    Le32(data, EntryOffset(i) + from)
  }

  ghost predicate SortedByKey(data: Bytes, h: Header)
    requires Fits(data, h)
  {
    forall i, j :: 0 <= i <= j < h.count ==> !Less(Key(data, h, j), Key(data, h, i))
  }

  // ---- What an entry says

  /** An entry of the table; the wall time and the spare bytes come last. */
  datatype Entry = Entry(key: Bytes, epoch: Bytes, outHash: Bytes, errHash: Bytes, out: nat, outLen: nat, err: nat,
                         errLen: nat, code: int, kind: nat, tail: Bytes)

  predicate Encodable(e: Entry) {
    && |e.key| == |e.epoch| == |e.outHash| == |e.errHash| == 64 && |e.tail| == 40
    && e.out < U32 && e.outLen < U32 && e.err < U32 && e.errLen < U32 && e.kind < U32
    && -0x8000_0000 <= e.code < 0x8000_0000
  }

  /** The bytes of an entry: four hashes of 64 bytes, six numbers of four bytes,
      and 40 bytes more. */
  function EntryBytes(e: Entry): (b: Bytes)
    requires Encodable(e)
    ensures |b| == ENTRY_BYTES
  {
    Hashes(e) + (Numbers(e) + e.tail)
  }

  function Hashes(e: Entry): (b: Bytes)
    requires Encodable(e)
    ensures |b| == 256
  {
    e.key + e.epoch + (e.outHash + e.errHash)
  }

  function Numbers(e: Entry): (b: Bytes)
    requires Encodable(e)
    ensures |b| == 24
  {
    (Put32(e.out) + Put32(e.outLen)) + (Put32(e.err) + Put32(e.errLen)) + (Put32(Bits32(e.code)) + Put32(e.kind))
  }

  /** Entry `i` of the data says this. */
  ghost predicate Claims(data: Bytes, i: nat, e: Entry) {
    && Encodable(e) && HEADER_BYTES + (i + 1) * ENTRY_BYTES <= |data|
    && data[HEADER_BYTES + i * ENTRY_BYTES..HEADER_BYTES + (i + 1) * ENTRY_BYTES] == EntryBytes(e)
  }

  lemma HashParts(b: Bytes, e: Entry)
    requires Encodable(e) && b == Hashes(e)
    ensures b[0..64] == e.key && b[64..128] == e.epoch && b[128..192] == e.outHash && b[192..256] == e.errHash
  {
  }

  lemma PairParts(a: Bytes, b: Bytes)
    requires |a| == |b| == 4
    ensures (a + b)[0..4] == a && (a + b)[4..8] == b
  {
  }

  lemma NumberParts(b: Bytes, e: Entry)
    requires Encodable(e) && b == Numbers(e)
    ensures b[0..4] == Put32(e.out) && b[4..8] == Put32(e.outLen) && b[8..12] == Put32(e.err)
    ensures b[12..16] == Put32(e.errLen) && b[16..20] == Put32(Bits32(e.code)) && b[20..24] == Put32(e.kind)
  {
    hide Put32;
    PairParts(Put32(e.out), Put32(e.outLen));
    PairParts(Put32(e.err), Put32(e.errLen));
    PairParts(Put32(Bits32(e.code)), Put32(e.kind));
    var x, y := Put32(e.out) + Put32(e.outLen), Put32(e.err) + Put32(e.errLen);
    var z := Put32(Bits32(e.code)) + Put32(e.kind);
    ThirdParts(x, y, z);
    SliceOfSlice(b, 0, 8, 0, 4);
    SliceOfSlice(b, 0, 8, 4, 4);
    SliceOfSlice(b, 8, 8, 0, 4);
    SliceOfSlice(b, 8, 8, 4, 4);
    SliceOfSlice(b, 16, 8, 0, 4);
    SliceOfSlice(b, 16, 8, 4, 4);
  }

  lemma ThirdParts(x: Bytes, y: Bytes, z: Bytes)
    requires |x| == |y| == |z| == 8
    ensures (x + y + z)[0..8] == x && (x + y + z)[8..16] == y && (x + y + z)[16..24] == z
  {
  }

  lemma EntryParts(e: Entry)
    requires Encodable(e)
    ensures EntryBytes(e)[0..256] == Hashes(e) && EntryBytes(e)[256..280] == Numbers(e)
  {
    hide Hashes, Numbers;
  }

  lemma HashesRead(data: Bytes, at: nat, e: Entry)
    requires Encodable(e) && at + ENTRY_BYTES <= |data| && data[at..at + ENTRY_BYTES] == EntryBytes(e)
    ensures data[at..at + 64] == e.key && data[at + 64..at + 128] == e.epoch
    ensures data[at + 128..at + 192] == e.outHash && data[at + 192..at + 256] == e.errHash
  {
    hide Hashes, Numbers, EntryBytes, Encodable;
    var b := EntryBytes(e);
    EntryParts(e);
    HashParts(Hashes(e), e);
    PartRead(data, at, b, Hashes(e), 0, 0, 64);
    PartRead(data, at, b, Hashes(e), 0, 64, 128);
    PartRead(data, at, b, Hashes(e), 0, 128, 192);
    PartRead(data, at, b, Hashes(e), 0, 192, 256);
  }

  lemma NumbersRead(data: Bytes, at: nat, e: Entry)
    requires Encodable(e) && at + ENTRY_BYTES <= |data| && data[at..at + ENTRY_BYTES] == EntryBytes(e)
    ensures Le32(data, at + 256) == e.out && Le32(data, at + 260) == e.outLen
    ensures Le32(data, at + 264) == e.err && Le32(data, at + 268) == e.errLen
    ensures Le32(data, at + 272) == Bits32(e.code) && Le32(data, at + 276) == e.kind
  {
    hide Hashes, Numbers, EntryBytes, Le32, Put32;
    var b := EntryBytes(e);
    EntryParts(e);
    NumberParts(Numbers(e), e);
    WordRead(data, at, b, Numbers(e), 0, e.out);
    WordRead(data, at, b, Numbers(e), 4, e.outLen);
    WordRead(data, at, b, Numbers(e), 8, e.err);
    WordRead(data, at, b, Numbers(e), 12, e.errLen);
    WordRead(data, at, b, Numbers(e), 16, Bits32(e.code));
    WordRead(data, at, b, Numbers(e), 20, e.kind);
  }

  /** The fields of an entry are read back. */
  lemma ClaimRead(data: Bytes, h: Header, i: nat, e: Entry)
    requires Fits(data, h) && i < h.count && Claims(data, i, e)
    ensures Key(data, h, i) == e.key && Field(data, h, i, 64, 128) == e.epoch
    ensures Field(data, h, i, 128, 192) == e.outHash && Field(data, h, i, 192, 256) == e.errHash
    ensures Number(data, h, i, 256) == e.out && Number(data, h, i, 260) == e.outLen
    ensures Number(data, h, i, 264) == e.err && Number(data, h, i, 268) == e.errLen
    ensures Number(data, h, i, 272) == Bits32(e.code) && Number(data, h, i, 276) == e.kind
  {
    hide Le32, EntryBytes, Encodable, EntryOffset, Fits, Claims, Field, Number;
    ClaimBytes(data, i, e);
    HashesRead(data, HEADER_BYTES + i * ENTRY_BYTES, e);
    NumbersRead(data, HEADER_BYTES + i * ENTRY_BYTES, e);
    FieldIs(data, h, i, 0, 64);
    FieldIs(data, h, i, 64, 128);
    FieldIs(data, h, i, 128, 192);
    FieldIs(data, h, i, 192, 256);
    NumberIs(data, h, i, 256);
    NumberIs(data, h, i, 260);
    NumberIs(data, h, i, 264);
    NumberIs(data, h, i, 268);
    NumberIs(data, h, i, 272);
    NumberIs(data, h, i, 276);
  }

  lemma FieldIs(data: Bytes, h: Header, i: nat, from: nat, to: nat)
    requires Fits(data, h) && i < h.count && from <= to <= ENTRY_BYTES
    ensures var at := HEADER_BYTES + i * ENTRY_BYTES;
            at + ENTRY_BYTES <= |data| && Field(data, h, i, from, to) == data[at + from..at + to]
  {
    EntryInside(data, h, i);
  }

  lemma NumberIs(data: Bytes, h: Header, i: nat, from: nat)
    requires Fits(data, h) && i < h.count && from + 4 <= ENTRY_BYTES
    ensures var at := HEADER_BYTES + i * ENTRY_BYTES;
            at + ENTRY_BYTES <= |data| && Number(data, h, i, from) == Le32(data, at + from)
  {
    hide Le32;
    EntryInside(data, h, i);
  }

  lemma ClaimBytes(data: Bytes, i: nat, e: Entry)
    requires Claims(data, i, e)
    ensures var at := HEADER_BYTES + i * ENTRY_BYTES;
            Encodable(e) && at + ENTRY_BYTES <= |data| && data[at..at + ENTRY_BYTES] == EntryBytes(e)
  {
  }

  lemma PartRead(data: Bytes, at: nat, b: Bytes, part: Bytes, from: nat, lo: nat, hi: nat)
    requires at + |b| <= |data| && data[at..at + |b|] == b
    requires from + |part| <= |b| && b[from..from + |part|] == part && lo <= hi <= |part|
    ensures data[at + from + lo..at + from + hi] == part[lo..hi]
  {
    SliceOfSlice(data, at, |b|, from + lo, hi - lo);
    SliceOfSlice(b, from, |part|, lo, hi - lo);
  }

  lemma WordRead(data: Bytes, at: nat, b: Bytes, numbers: Bytes, k: nat, n: nat)
    requires at + |b| <= |data| && data[at..at + |b|] == b && |numbers| == 24
    requires 280 <= |b| && b[256..280] == numbers && k + 4 <= 24 && n < U32 && numbers[k..k + 4] == Put32(n)
    ensures Le32(data, at + 256 + k) == n
  {
    hide Put32, Le32;
    PartRead(data, at, b, numbers, 256, k, k + 4);
    PutLe32(n, data, at + 256 + k);
  }

  /** Whatever the bytes, they say something. */
  lemma EntryDecoded(data: Bytes, h: Header, i: nat) returns (e: Entry)
    requires Fits(data, h) && i < h.count
    ensures Claims(data, i, e)
  {
    EntryInside(data, h, i);
    hide Fits, EntryOffset, EntryBytes, Encodable;
    e := EntryOf(data[HEADER_BYTES + i * ENTRY_BYTES..HEADER_BYTES + (i + 1) * ENTRY_BYTES]);
  }

  lemma EntryOf(b: Bytes) returns (e: Entry)
    requires |b| == 320
    ensures Encodable(e) && EntryBytes(e) == b
  {
    hide Le32, Put32, Signed32, Bits32;
    BitsSigned(Le32(b, 272));
    e := Entry(b[0..64], b[64..128], b[128..192], b[192..256], Le32(b, 256), Le32(b, 260), Le32(b, 264), Le32(b, 268),
               Signed32(Le32(b, 272)), Le32(b, 276), b[280..320]);
    LePut32(b, 256);
    LePut32(b, 260);
    LePut32(b, 264);
    LePut32(b, 268);
    LePut32(b, 272);
    LePut32(b, 276);
    NumbersJoin(b, e);
    HashesJoin(b, e);
    hide Hashes, Numbers;
    assert b == b[0..256] + (b[256..280] + b[280..320]);
  }

  lemma HashesJoin(b: Bytes, e: Entry)
    requires Encodable(e) && |b| == 320
    requires e.key == b[0..64] && e.epoch == b[64..128] && e.outHash == b[128..192] && e.errHash == b[192..256]
    ensures Hashes(e) == b[0..256]
  {
    assert b[0..64] + b[64..128] == b[0..128] && b[128..192] + b[192..256] == b[128..256];
    assert b[0..128] + b[128..256] == b[0..256];
  }

  lemma NumbersJoin(b: Bytes, e: Entry)
    requires Encodable(e) && |b| == 320
    requires Put32(e.out) == b[256..260] && Put32(e.outLen) == b[260..264] && Put32(e.err) == b[264..268]
    requires Put32(e.errLen) == b[268..272] && Put32(Bits32(e.code)) == b[272..276] && Put32(e.kind) == b[276..280]
    ensures Numbers(e) == b[256..280]
  {
    hide Put32;
    assert b[256..260] + b[260..264] == b[256..264];
    assert b[264..268] + b[268..272] == b[264..272];
    assert b[272..276] + b[276..280] == b[272..280];
    assert b[256..264] + b[264..272] + b[272..280] == b[256..280];
  }

  // ---- Answers

  /** What is looked for; `hash` is SHA-256 in hexadecimal. */
  datatype Want = Want(key: Bytes, epoch: Bytes, kind: nat, hash: Bytes -> Bytes)

  datatype Answer = Answer(out: nat, outLen: nat, err: nat, errLen: nat, code: int)

  predicate IsHexDigit(b: Byte) {
    0x30 <= b <= 0x39 || 0x41 <= b <= 0x46 || 0x61 <= b <= 0x66
  }

  predicate AllHex(text: Bytes) {
    forall i :: 0 <= i < |text| ==> IsHexDigit(text[i])
  }

  predicate Matches(data: Bytes, h: Header, i: nat, want: Want)
    requires Fits(data, h) && i < h.count
  {
    Key(data, h, i) == want.key && Field(data, h, i, 64, 128) == want.epoch
  }

  /** The answer of an entry that matches, if it is of the kind wanted, lies in
      the payload and has the content it claims. */
  function ReadAnswer(data: Bytes, h: Header, i: nat, want: Want): (r: Option<Answer>)
    requires Fits(data, h) && i < h.count
    ensures r.Some? ==>
              var a := r.value;
              && h.payload <= a.out && a.out + a.outLen <= h.total <= |data|
              && h.payload <= a.err && a.err + a.errLen <= h.total
              && want.hash(data[a.out..a.out + a.outLen]) == Field(data, h, i, 128, 192)
              && want.hash(data[a.err..a.err + a.errLen]) == Field(data, h, i, 192, 256)
  {
    var out, outLen, err, errLen := Number(data, h, i, 256), Number(data, h, i, 260), Number(data, h, i, 264),
                                    Number(data, h, i, 268);
    if !AllHex(Field(data, h, i, 128, 192)) || !AllHex(Field(data, h, i, 192, 256)) then None
    else if Number(data, h, i, 276) != want.kind || out < h.payload || err < h.payload || out > h.total ||
            err > h.total || outLen > h.total - out || errLen > h.total - err
    then None
    else if want.hash(data[out..out + outLen]) != Field(data, h, i, 128, 192) ||
            want.hash(data[err..err + errLen]) != Field(data, h, i, 192, 256)
    then None
    else Some(Answer(out, outLen, err, errLen, Signed32(Number(data, h, i, 272))))
  }

  /** Hexadecimal digits only. */
  predicate Hex(text: Bytes) {
    forall b :: b in text ==> b as char in "0123456789abcdefABCDEF"
  }

  /** What stands in an entry can be answered: the kind is the wanted one, the
      slices lie in the payload and have the hashes claimed. */
  predicate Good(data: Bytes, h: Header, e: Entry, want: Want)
    requires Fits(data, h)
  {
    && e.kind == want.kind && Hex(e.outHash) && Hex(e.errHash)
    && h.payload <= e.out && e.out + e.outLen <= h.total && h.payload <= e.err && e.err + e.errLen <= h.total
    && want.hash(data[e.out..e.out + e.outLen]) == e.outHash && want.hash(data[e.err..e.err + e.errLen]) == e.errHash
  }

  predicate IsFor(e: Entry, want: Want) {
    e.key == want.key && e.epoch == want.epoch
  }

  /** The first entry for what is wanted. */
  ghost predicate FirstFor(data: Bytes, h: Header, want: Want, i: nat, e: Entry) {
    && i < h.count && Claims(data, i, e) && IsFor(e, want)
    && forall j: nat, e' :: j < i && Claims(data, j, e') ==> !IsFor(e', want)
  }

  lemma HexIs(text: Bytes)
    ensures AllHex(text) <==> Hex(text)
  {
    forall b: Byte
      ensures IsHexDigit(b) <==> b as char in "0123456789abcdefABCDEF"
    {
    }
    if Hex(text) {
      forall i | 0 <= i < |text|
        ensures IsHexDigit(text[i])
      {
        assert text[i] in text;
      }
    }
  }

  /** An entry is answered exactly if it is good, and then with its slices and
      its exit code. */
  lemma AnswerIs(data: Bytes, h: Header, i: nat, e: Entry, want: Want)
    requires Fits(data, h) && i < h.count && Claims(data, i, e)
    ensures Matches(data, h, i, want) <==> IsFor(e, want)
    ensures ReadAnswer(data, h, i, want) ==
            if Good(data, h, e, want) then Some(Answer(e.out, e.outLen, e.err, e.errLen, e.code)) else None
  {
    hide Key, Field, Number, Claims, Hex, AllHex, EntryBytes;
    ClaimRead(data, h, i, e);
    CodeClaimed(data, i, e);
    SignedBits(e.code);
    HexIs(e.outHash);
    HexIs(e.errHash);
  }

  lemma CodeClaimed(data: Bytes, i: nat, e: Entry)
    requires Claims(data, i, e)
    ensures -0x8000_0000 <= e.code < 0x8000_0000
  {
  }

  /** The plain scan: the first entry that matches decides. */
  function LinearScan(data: Bytes, h: Header, want: Want, i: nat): Option<Answer>
    requires Fits(data, h) && i <= h.count
    decreases h.count - i
  {
    if i == h.count then None
    else if Matches(data, h, i, want) then ReadAnswer(data, h, i, want)
    else LinearScan(data, h, want, i + 1)
  }

  function LinearFind(data: Bytes, want: Want): Option<Answer> {
    var h := ReadHeader(data);
    if h.None? then None else LinearScan(data, h.value, want, 0)
  }

  lemma {:induction false} ScanSkips(data: Bytes, h: Header, want: Want, i: nat, j: nat)
    requires Fits(data, h) && i <= j <= h.count
    requires forall k :: i <= k < j ==> !Matches(data, h, k, want)
    ensures LinearScan(data, h, want, i) == LinearScan(data, h, want, j)
    decreases j - i
  {
    hide Fits, Matches, ReadAnswer;
    if i < j {
      ScanSkips(data, h, want, i + 1, j);
    }
  }

  /** The plain scan answers what the first entry for the wanted key and epoch
      says, or nothing if there is none. */
  lemma ScanIs(data: Bytes, h: Header, want: Want, r: Option<Answer>)
    requires Fits(data, h) && r == LinearScan(data, h, want, 0)
    ensures forall i, e :: FirstFor(data, h, want, i, e) ==>
              r == if Good(data, h, e, want) then Some(Answer(e.out, e.outLen, e.err, e.errLen, e.code)) else None
    ensures (forall i: nat, e :: i < h.count && Claims(data, i, e) ==> !IsFor(e, want)) ==> r.None?
  {
    hide Fits, Claims, Good, Matches, ReadAnswer;
    forall i: nat, e | FirstFor(data, h, want, i, e)
      ensures r == if Good(data, h, e, want) then Some(Answer(e.out, e.outLen, e.err, e.errLen, e.code)) else None
    {
      forall k | 0 <= k < i
        ensures !Matches(data, h, k, want)
      {
        var e' := EntryDecoded(data, h, k);
        AnswerIs(data, h, k, e', want);
      }
      ScanSkips(data, h, want, 0, i);
      AnswerIs(data, h, i, e, want);
    }
    if forall i: nat, e :: i < h.count && Claims(data, i, e) ==> !IsFor(e, want) {
      forall k | 0 <= k < h.count
        ensures !Matches(data, h, k, want)
      {
        var e' := EntryDecoded(data, h, k);
        AnswerIs(data, h, k, e', want);
      }
      ScanSkips(data, h, want, 0, h.count);
    }
  }

  // ---- The search

  /** The first entry of a command: sound on any bytes, and complete on a table
      sorted by key. */
  method CommandStart(data: Bytes, h: Header, key: Bytes) returns (start: Option<nat>)
    requires Fits(data, h) && |key| == 64
    ensures start.Some? ==> start.value < h.count && Key(data, h, start.value) == key
    ensures SortedByKey(data, h) ==>
              forall k :: 0 <= k < (if start.Some? then start.value else h.count) ==> Key(data, h, k) != key
  {
    hide Less, Key;
    var lo: nat, hi: nat := 0, h.count;
    while lo < hi
      invariant lo <= hi <= h.count
      invariant SortedByKey(data, h) ==> forall k :: 0 <= k < lo ==> Less(Key(data, h, k), key)
      invariant SortedByKey(data, h) ==> forall k :: hi <= k < h.count ==> !Less(Key(data, h, k), key)
    {
      var mid := lo + (hi - lo) / 2;
      if Less(Key(data, h, mid), key) {
        forall k | 0 <= k <= mid && SortedByKey(data, h)
          ensures Less(Key(data, h, k), key)
        {
          LessTransitive(Key(data, h, k), Key(data, h, mid), key);
        }
        lo := mid + 1;
      } else {
        forall k | mid <= k < h.count && SortedByKey(data, h)
          ensures !Less(Key(data, h, k), key)
        {
          if Less(Key(data, h, k), key) {
            LessTransitive(Key(data, h, mid), Key(data, h, k), key);
          }
        }
        hi := mid;
      }
    }
    forall k | 0 <= k < lo && SortedByKey(data, h)
      ensures Key(data, h, k) != key
    {
      LessTrichotomy(Key(data, h, k), key);
    }
    if lo >= h.count || Key(data, h, lo) != key {
      if SortedByKey(data, h) {
        AbsentAbove(data, h, key, lo);
      }
      return None;
    }
    start := Some(lo);
  }

  lemma AbsentAbove(data: Bytes, h: Header, key: Bytes, lo: nat)
    requires Fits(data, h) && |key| == 64 && SortedByKey(data, h) && lo <= h.count
    requires forall k :: lo <= k < h.count ==> !Less(Key(data, h, k), key)
    requires lo < h.count ==> Key(data, h, lo) != key
    ensures forall k :: lo <= k < h.count ==> Key(data, h, k) != key
  {
    hide Less, Key;
    forall k | lo <= k < h.count
      ensures Key(data, h, k) != key
    {
      LessTrichotomy(Key(data, h, lo), key);
    }
  }

  /** The lookup: on any bytes every slice it returns lies in the payload and
      holds what the entry claims; on a table sorted by key it answers as the
      plain scan does. */
  method Find(data: Bytes, want: Want) returns (r: Option<Answer>)
    requires |want.key| == 64 && |want.epoch| == 64
    ensures r.Some? ==>
              && ReadHeader(data).Some?
              && ReadHeader(data).value.payload <= r.value.out && r.value.out + r.value.outLen <= |data|
              && ReadHeader(data).value.payload <= r.value.err && r.value.err + r.value.errLen <= |data|
    ensures r.Some? ==>
              exists i :: 0 <= i < ReadHeader(data).value.count && Matches(data, ReadHeader(data).value, i, want) &&
                          r == ReadAnswer(data, ReadHeader(data).value, i, want)
    ensures ReadHeader(data).Some? && SortedByKey(data, ReadHeader(data).value) ==> r == LinearFind(data, want)
    ensures ReadHeader(data).None? ==> r == None == LinearFind(data, want)
    ensures ReadHeader(data).Some? ==> Found(data, ReadHeader(data).value, want, r)
  {
    hide ReadAnswer, Matches, ReadHeader, Found, LinearScan, SortedByKey;
    r := LookUp(data, want);
    if ReadHeader(data).Some? {
      FoundAnswers(data, ReadHeader(data).value, want, r);
    }
  }

  lemma FoundAnswers(data: Bytes, h: Header, want: Want, r: Option<Answer>)
    requires Fits(data, h)
    requires r.Some? ==> exists i :: 0 <= i < h.count && Matches(data, h, i, want) && r == ReadAnswer(data, h, i, want)
    requires SortedByKey(data, h) ==> r == LinearScan(data, h, want, 0)
    ensures Found(data, h, want, r)
  {
    hide Fits, ReadAnswer, Matches, Claims, Good, LinearScan, SortedByKey;
    if r.Some? {
      var i :| 0 <= i < h.count && Matches(data, h, i, want) && r == ReadAnswer(data, h, i, want);
      var e := EntryDecoded(data, h, i);
      AnswerIs(data, h, i, e, want);
    }
    if SortedByKey(data, h) {
      ScanIs(data, h, want, r);
    }
  }

  /** The answer, or that there is none, by what the entries say. */
  ghost predicate Found(data: Bytes, h: Header, want: Want, r: Option<Answer>)
    requires Fits(data, h)
  {
    && (r.Some? ==>
          exists i: nat, e ::
            && i < h.count && Claims(data, i, e) && IsFor(e, want) && Good(data, h, e, want)
            && r.value == Answer(e.out, e.outLen, e.err, e.errLen, e.code))
    && (SortedByKey(data, h) ==>
          && (forall i, e :: FirstFor(data, h, want, i, e) ==>
                r == if Good(data, h, e, want) then Some(Answer(e.out, e.outLen, e.err, e.errLen, e.code)) else None)
          && ((forall i: nat, e :: i < h.count && Claims(data, i, e) ==> !IsFor(e, want)) ==> r.None?))
  }

  method LookUp(data: Bytes, want: Want) returns (r: Option<Answer>)
    requires |want.key| == 64 && |want.epoch| == 64
    ensures r.Some? ==>
              exists i :: ReadHeader(data).Some? && 0 <= i < ReadHeader(data).value.count &&
                          Matches(data, ReadHeader(data).value, i, want) &&
                          r == ReadAnswer(data, ReadHeader(data).value, i, want)
    ensures ReadHeader(data).Some? && SortedByKey(data, ReadHeader(data).value) ==> r == LinearFind(data, want)
    ensures ReadHeader(data).None? ==> r == None == LinearFind(data, want)
  {
    hide ReadAnswer, Key, Field, ReadHeader;
    var header := ReadHeader(data);
    if header.None? {
      return None;
    }
    var h := header.value;
    var start := CommandStart(data, h, want.key);
    if start.None? {
      if SortedByKey(data, h) {
        ScanSkips(data, h, want, 0, h.count);
      }
      return None;
    }
    var i := start.value;
    if SortedByKey(data, h) {
      ScanSkips(data, h, want, 0, i);
    }
    while i < h.count && Key(data, h, i) == want.key
      invariant start.value <= i <= h.count
      invariant SortedByKey(data, h) ==> LinearScan(data, h, want, 0) == LinearScan(data, h, want, i)
      invariant i > start.value ==> Key(data, h, i - 1) == want.key
    {
      if Field(data, h, i, 64, 128) == want.epoch {
        assert Matches(data, h, i, want);
        return ReadAnswer(data, h, i, want);
      }
      i := i + 1;
    }
    if SortedByKey(data, h) {
      OnlyOneRun(data, h, want, start.value, i);
      ScanSkips(data, h, want, i, h.count);
    }
    r := None;
  }

  /** Past a command's entries there are no more of them. */
  lemma OnlyOneRun(data: Bytes, h: Header, want: Want, first: nat, end: nat)
    requires Fits(data, h) && SortedByKey(data, h) && |want.key| == 64 && first < end <= h.count
    requires Key(data, h, end - 1) == want.key && (end < h.count ==> Key(data, h, end) != want.key)
    ensures forall k :: end <= k < h.count ==> !Matches(data, h, k, want)
  {
    hide Less, Key, Field;
    forall k | end <= k < h.count
      ensures Key(data, h, k) != want.key
    {
      LessTrichotomy(Key(data, h, end), want.key);
    }
  }
}
