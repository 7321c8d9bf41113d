/**
  The market account layout and its decoder (`decodeMarket` in script.js,
  repeated verbatim in leaderboard.js and profile.js; all three pages use the
  single `Decode` below).

  Layout, all integers little-endian, L the question length:
    [0,8)           discriminator, skipped
    [8,40)          creator key
    [40,44)         L as u32
    [44,44+L)       question bytes
    [44+L,76+L)     base mint key
    [76+L,108+L)    yes pool, no pool, total yes shares, total no shares (u64 each)
    108+L           status byte
    [109+L,125+L)   created-at, resolve-at (8 bytes each, read unsigned)
    [125+L,157+L)   resolver key
    157+L           fee-paid byte
 */
module MarketAccount {
  import opened Wrappers
  import opened Bytes
  import opened Borsh

  /** A decoded market record. */
  datatype Market = Market(
    creator: Key,
    question: seq<Byte>,
    baseMint: Key,
    yesPool: U64,
    noPool: U64,
    totalYesShares: U64,
    totalNoShares: U64,
    status: Byte,
    createdAt: U64,
    resolveAt: U64,
    resolver: Key,
    feePaid: bool)

  /** Bytes of a record other than its question. */
  const FixedSize: nat := 158

  /** A record whose question length fits the u32 prefix, so that it can be written. */
  predicate Writable(m: Market)
  {
    |m.question| < 0x1_0000_0000
  }

  /** Where each field of `m` sits in `data`: the layout table above, field by field. */
  predicate Occupies(data: seq<Byte>, m: Market)
  {
    var L := |m.question|;
    && |data| >= FixedSize + L
    && data[8..40] == m.creator
    && LeValue(data[40..44]) == L
    && data[44..44 + L] == m.question
    && data[44 + L..76 + L] == m.baseMint
    && LeValue(data[76 + L..84 + L]) == m.yesPool
    && LeValue(data[84 + L..92 + L]) == m.noPool
    && LeValue(data[92 + L..100 + L]) == m.totalYesShares
    && LeValue(data[100 + L..108 + L]) == m.totalNoShares
    && data[108 + L] == m.status
    && LeValue(data[109 + L..117 + L]) == m.createdAt
    && LeValue(data[117 + L..125 + L]) == m.resolveAt
    && data[125 + L..157 + L] == m.resolver
    && (m.feePaid <==> data[157 + L] == 1)
  }

  /**
    Reads the fields in order after skipping the discriminator. Every read is
    bounds-checked, so decoding fails exactly when the buffer is shorter than
    the 44 bytes that hold the length prefix or than the whole record.
   */
  function Decode(data: seq<Byte>): (r: Option<Market>)
    ensures r.Some? <==> 44 <= |data| && FixedSize + LeValue(data[40..44]) <= |data|
    ensures r.Some? ==> Occupies(data, r.value) && Writable(r.value)
  {
    var creator :- ReadKey(data, 8);
    var len :- ReadU32(data, creator.next);
    var question :- ReadBytes(data, len.next, len.value);
    var baseMint :- ReadKey(data, question.next);
    var yesPool :- ReadU64(data, baseMint.next);
    var noPool :- ReadU64(data, yesPool.next);
    var yesShares :- ReadU64(data, noPool.next);
    var noShares :- ReadU64(data, yesShares.next);
    var status :- ReadU8(data, noShares.next);
    var createdAt :- ReadU64(data, status.next);
    var resolveAt :- ReadU64(data, createdAt.next);
    var resolver :- ReadKey(data, resolveAt.next);
    var feePaid :- ReadU8(data, resolver.next);
    Some(Market(creator.value, question.value, baseMint.value,
                yesPool.value, noPool.value, yesShares.value, noShares.value,
                status.value, createdAt.value, resolveAt.value, resolver.value,
                feePaid.value == 1))
  }

  /** Discriminator, creator, length prefix and question. */
  function Head(discriminator: seq<Byte>, m: Market): (h: seq<Byte>)
    requires |discriminator| == 8 && Writable(m)
    ensures |h| == 44 + |m.question|
    ensures h[..8] == discriminator && h[8..40] == m.creator
    ensures LeValue(h[40..44]) == |m.question| && h[44..] == m.question
  {
    Pow256Facts();
    var h := discriminator + m.creator + LeBytes(|m.question|, 4) + m.question;
    assert h[40..44] == LeBytes(|m.question|, 4);
    h
  }

  /** Base mint and the four u64 amounts. */
  function Amounts(m: Market): (p: seq<Byte>)
    ensures |p| == 64 && p[..32] == m.baseMint
    ensures LeValue(p[32..40]) == m.yesPool && LeValue(p[40..48]) == m.noPool
    ensures LeValue(p[48..56]) == m.totalYesShares && LeValue(p[56..64]) == m.totalNoShares
  {
    Pow256Facts();
    var p := m.baseMint + LeBytes(m.yesPool, 8) + LeBytes(m.noPool, 8)
             + LeBytes(m.totalYesShares, 8) + LeBytes(m.totalNoShares, 8);
    assert p[32..40] == LeBytes(m.yesPool, 8);
    assert p[40..48] == LeBytes(m.noPool, 8);
    assert p[48..56] == LeBytes(m.totalYesShares, 8);
    SliceRight(m.baseMint + LeBytes(m.yesPool, 8) + LeBytes(m.noPool, 8) + LeBytes(m.totalYesShares, 8),
               LeBytes(m.totalNoShares, 8), 56, 64);
    assert p[56..64] == LeBytes(m.totalNoShares, 8);
    p
  }

  /** Status, the two timestamps, resolver and the fee flag as 1 or 0. */
  function Trailer(m: Market): (t: seq<Byte>)
    ensures |t| == 50 && t[0] == m.status
    ensures LeValue(t[1..9]) == m.createdAt && LeValue(t[9..17]) == m.resolveAt
    ensures t[17..49] == m.resolver && t[49] == (if m.feePaid then 1 else 0)
  {
    Pow256Facts();
    var t := [m.status] + LeBytes(m.createdAt, 8) + LeBytes(m.resolveAt, 8)
             + m.resolver + [if m.feePaid then 1 else 0];
    assert t[1..9] == LeBytes(m.createdAt, 8);
    assert t[9..17] == LeBytes(m.resolveAt, 8);
    assert t[17..49] == m.resolver;
    t
  }

  /** A slice of a slice is a slice of the original. */
  lemma SliceOfSlice(s: seq<Byte>, lo: nat, hi: nat, i: nat, j: nat)
    requires lo <= hi <= |s| && i <= j <= hi - lo
    ensures s[lo..hi][i..j] == s[lo + i..lo + j]
  {
    assert |s[lo..hi][i..j]| == |s[lo + i..lo + j]|;
    forall k | 0 <= k < j - i
      ensures s[lo..hi][i..j][k] == s[lo + i..lo + j][k]
    {
      assert s[lo..hi][i..j][k] == s[lo..hi][i + k] == s[lo + i + k];
    }
  }

  /** A slice lying inside the right operand of a concatenation. */
  lemma SliceRight(a: seq<Byte>, b: seq<Byte>, i: nat, j: nat)
    requires |a| <= i <= j <= |a| + |b|
    ensures (a + b)[i..j] == b[i - |a|..j - |a|]
  {
  }

  /**
    The layout-matching writer: the fields of `m` in the decoder's order and
    widths, after the given discriminator. The fee flag is written as 1 or 0.
   */
  function EncodeAccount(discriminator: seq<Byte>, m: Market): (r: seq<Byte>)
    requires |discriminator| == 8 && Writable(m)
    ensures |r| == FixedSize + |m.question|
    ensures r[..8] == discriminator
    ensures Occupies(r, m)
    ensures r[157 + |m.question|] == (if m.feePaid then 1 else 0)
  {
    var h := Head(discriminator, m);
    var p := Amounts(m);
    var t := Trailer(m);
    HeadPlaced(h, p, t, discriminator, m);
    AmountsPlaced(h, p, t, m);
    TrailerPlaced(h + p, t, m);
    h + p + t
  }

  /** A slice lying inside the left operand of a concatenation. */
  lemma SliceLeft(a: seq<Byte>, b: seq<Byte>, i: nat, j: nat)
    requires i <= j <= |a|
    ensures (a + b)[i..j] == a[i..j]
  {
  }

  /** The head's fields keep their offsets in the whole record. */
  lemma HeadPlaced(h: seq<Byte>, p: seq<Byte>, t: seq<Byte>, discriminator: seq<Byte>, m: Market)
    requires |discriminator| == 8 && Writable(m) && h == Head(discriminator, m)
    ensures var r := h + p + t; var L := |m.question|;
            && r[..8] == discriminator && r[8..40] == m.creator
            && LeValue(r[40..44]) == L && r[44..44 + L] == m.question
  {
    var L := |m.question|;
    var hp := h + p;
    SliceLeft(hp, t, 0, 8);
    SliceLeft(h, p, 0, 8);
    assert h[0..8] == h[..8];
    SliceLeft(hp, t, 8, 40);
    SliceLeft(h, p, 8, 40);
    SliceLeft(hp, t, 40, 44);
    SliceLeft(h, p, 40, 44);
    SliceLeft(hp, t, 44, 44 + L);
    SliceLeft(h, p, 44, 44 + L);
    assert h[44..44 + L] == h[44..];
  }

  /** The amounts' fields sit after the head in the whole record. */
  lemma AmountsPlaced(h: seq<Byte>, p: seq<Byte>, t: seq<Byte>, m: Market)
    requires |h| == 44 + |m.question| && p == Amounts(m)
    ensures var r := h + p + t; var L := |m.question|;
            && r[44 + L..76 + L] == m.baseMint
            && LeValue(r[76 + L..84 + L]) == m.yesPool
            && LeValue(r[84 + L..92 + L]) == m.noPool
            && LeValue(r[92 + L..100 + L]) == m.totalYesShares
            && LeValue(r[100 + L..108 + L]) == m.totalNoShares
  {
    var L := |m.question|;
    var hp := h + p;
    SliceLeft(hp, t, 44 + L, 76 + L);
    SliceRight(h, p, 44 + L, 76 + L);
    assert p[0..32] == p[..32];
    SliceLeft(hp, t, 76 + L, 84 + L);
    SliceRight(h, p, 76 + L, 84 + L);
    SliceLeft(hp, t, 84 + L, 92 + L);
    SliceRight(h, p, 84 + L, 92 + L);
    SliceLeft(hp, t, 92 + L, 100 + L);
    SliceRight(h, p, 92 + L, 100 + L);
    SliceLeft(hp, t, 100 + L, 108 + L);
    SliceRight(h, p, 100 + L, 108 + L);
  }

  /** The trailer's fields sit after the amounts in the whole record. */
  lemma TrailerPlaced(hp: seq<Byte>, t: seq<Byte>, m: Market)
    requires |hp| == 108 + |m.question| && t == Trailer(m)
    ensures var r := hp + t; var L := |m.question|;
            && r[108 + L] == m.status
            && LeValue(r[109 + L..117 + L]) == m.createdAt
            && LeValue(r[117 + L..125 + L]) == m.resolveAt
            && r[125 + L..157 + L] == m.resolver
            && r[157 + L] == (if m.feePaid then 1 else 0)
  {
    var L := |m.question|;
    SliceRight(hp, t, 109 + L, 117 + L);
    SliceRight(hp, t, 117 + L, 125 + L);
    SliceRight(hp, t, 125 + L, 157 + L);
  }

  /** Any buffer laid out as `m` decodes to `m`, whatever its discriminator or trailing bytes. */
  lemma DecodeOfLayout(data: seq<Byte>, m: Market)
    requires Occupies(data, m)
    ensures Decode(data) == Some(m)
  {
    var L := |m.question|;
    var r := Decode(data);
    assert r.Some?;
    var d := r.value;
    assert |d.question| == L;
    assert d.creator == m.creator && d.question == m.question && d.baseMint == m.baseMint;
    assert d.resolver == m.resolver;
  }

  /** Writing a record in the decoder's order and widths and decoding it returns the record. */
  lemma RoundTrip(discriminator: seq<Byte>, m: Market)
    requires |discriminator| == 8 && Writable(m)
    ensures Decode(EncodeAccount(discriminator, m)) == Some(m)
  {
    DecodeOfLayout(EncodeAccount(discriminator, m), m);
  }

  /** A record with question length L occupies exactly FixedSize + L bytes. */
  lemma RecordSize(data: seq<Byte>)
    requires Decode(data).Some?
    ensures FixedSize + |Decode(data).value.question| <= |data|
    ensures |Decode(data).value.question| == LeValue(data[40..44])
    ensures forall k :: 0 <= k < FixedSize + |Decode(data).value.question| ==> Decode(data[..k]).None?
  {
    var L := |Decode(data).value.question|;
    forall k | 0 <= k < FixedSize + L
      ensures Decode(data[..k]).None?
    {
      if k >= 44 {
        assert data[..k][40..44] == data[40..44];
      }
    }
  }

  /** Two buffers that agree on the bytes a record occupies (after the discriminator) hold the same record. */
  lemma OccupiesTransfer(a: seq<Byte>, b: seq<Byte>, m: Market)
    requires Occupies(a, m)
    requires |b| >= FixedSize + |m.question|
    requires forall i :: 8 <= i < FixedSize + |m.question| ==> a[i] == b[i]
    ensures Occupies(b, m)
  {
    var L := |m.question|;
    assert a[8..40] == b[8..40];
    assert a[40..44] == b[40..44];
    assert a[44..44 + L] == b[44..44 + L];
    assert a[44 + L..76 + L] == b[44 + L..76 + L];
    assert a[76 + L..84 + L] == b[76 + L..84 + L];
    assert a[84 + L..92 + L] == b[84 + L..92 + L];
    assert a[92 + L..100 + L] == b[92 + L..100 + L];
    assert a[100 + L..108 + L] == b[100 + L..108 + L];
    assert a[109 + L..117 + L] == b[109 + L..117 + L];
    assert a[117 + L..125 + L] == b[117 + L..125 + L];
    assert a[125 + L..157 + L] == b[125 + L..157 + L];
  }

  /** The leading eight bytes are skipped, never compared against a known discriminator. */
  lemma DiscriminatorIgnored(data: seq<Byte>, discriminator: seq<Byte>)
    requires |data| >= 8 && |discriminator| == 8
    ensures Decode(discriminator + data[8..]) == Decode(data)
  {
    var other := discriminator + data[8..];
    assert |other| == |data|;
    assert forall i :: 8 <= i < |data| ==> other[i] == data[i];
    if |data| >= 44 {
      assert other[40..44] == data[40..44];
    }
    if Decode(data).Some? {
      OccupiesTransfer(data, other, Decode(data).value);
      DecodeOfLayout(other, Decode(data).value);
    }
  }

  /** Bytes after the record are never read. */
  lemma TrailingBytesIgnored(data: seq<Byte>, extra: seq<Byte>)
    requires Decode(data).Some?
    ensures Decode(data + extra) == Decode(data)
  {
    var m := Decode(data).value;
    OccupiesTransfer(data, data + extra, m);
    DecodeOfLayout(data + extra, m);
  }

  /** The status byte is returned raw: every byte value decodes, none is rejected. */
  lemma StatusNotValidated(data: seq<Byte>, v: Byte)
    requires Decode(data).Some?
    ensures var m := Decode(data).value;
            Decode(data[108 + |m.question| := v]) == Some(m.(status := v))
  {
    var m := Decode(data).value;
    var L := |m.question|;
    var other := data[108 + L := v];
    var m' := m.(status := v);
    assert data[8..40] == other[8..40];
    assert data[40..44] == other[40..44];
    assert data[44..44 + L] == other[44..44 + L];
    assert data[44 + L..76 + L] == other[44 + L..76 + L];
    assert data[76 + L..84 + L] == other[76 + L..84 + L];
    assert data[84 + L..92 + L] == other[84 + L..92 + L];
    assert data[92 + L..100 + L] == other[92 + L..100 + L];
    assert data[100 + L..108 + L] == other[100 + L..108 + L];
    assert data[109 + L..117 + L] == other[109 + L..117 + L];
    assert data[117 + L..125 + L] == other[117 + L..125 + L];
    assert data[125 + L..157 + L] == other[125 + L..157 + L];
    assert Occupies(other, m');
    DecodeOfLayout(other, m');
  }

  /** The fee flag is true exactly when its byte is 1; every other byte, not only 0, reads as false. */
  lemma FeeByteNotValidated(data: seq<Byte>, v: Byte)
    requires Decode(data).Some?
    ensures var m := Decode(data).value;
            Decode(data[157 + |m.question| := v]) == Some(m.(feePaid := v == 1))
  {
    var m := Decode(data).value;
    var L := |m.question|;
    var other := data[157 + L := v];
    var m' := m.(feePaid := v == 1);
    assert data[8..40] == other[8..40];
    assert data[40..44] == other[40..44];
    assert data[44..44 + L] == other[44..44 + L];
    assert data[44 + L..76 + L] == other[44 + L..76 + L];
    assert data[76 + L..84 + L] == other[76 + L..84 + L];
    assert data[84 + L..92 + L] == other[84 + L..92 + L];
    assert data[92 + L..100 + L] == other[92 + L..100 + L];
    assert data[100 + L..108 + L] == other[100 + L..108 + L];
    assert data[109 + L..117 + L] == other[109 + L..117 + L];
    assert data[117 + L..125 + L] == other[117 + L..125 + L];
    assert data[125 + L..157 + L] == other[125 + L..157 + L];
    assert Occupies(other, m');
    DecodeOfLayout(other, m');
  }

  lemma HeadOfDecoded(data: seq<Byte>, m: Market)
    requires Decode(data) == Some(m)
    ensures data[..44 + |m.question|] == Head(data[..8], m)
  {
    var L := |m.question|;
    var h := Head(data[..8], m);
    var d := data[..44 + L];
    assert d[40..44] == data[40..44];
    SameReading(h[40..44], d[40..44]);
    forall i | 0 <= i < 44 + L
      ensures h[i] == d[i]
    {
      if i < 8 {
        assert h[i] == h[..8][i];
      } else if i < 40 {
        assert h[i] == h[8..40][i - 8];
      } else if i < 44 {
        assert h[i] == h[40..44][i - 40];
      } else {
        assert h[i] == h[44..][i - 44];
      }
    }
  }

  lemma AmountsOfDecoded(data: seq<Byte>, m: Market)
    requires Decode(data) == Some(m)
    ensures data[44 + |m.question|..108 + |m.question|] == Amounts(m)
  {
    var L := |m.question|;
    var p := Amounts(m);
    var d := data[44 + L..108 + L];
    SliceOfSlice(data, 44 + L, 108 + L, 32, 40);
    SliceOfSlice(data, 44 + L, 108 + L, 40, 48);
    SliceOfSlice(data, 44 + L, 108 + L, 48, 56);
    SliceOfSlice(data, 44 + L, 108 + L, 56, 64);
    SameReading(p[32..40], d[32..40]);
    SameReading(p[40..48], d[40..48]);
    SameReading(p[48..56], d[48..56]);
    SameReading(p[56..64], d[56..64]);
    forall i | 0 <= i < 64
      ensures p[i] == d[i]
    {
      if i < 32 {
        assert p[i] == p[..32][i];
      } else if i < 40 {
        assert p[i] == p[32..40][i - 32];
      } else if i < 48 {
        assert p[i] == p[40..48][i - 40];
      } else if i < 56 {
        assert p[i] == p[48..56][i - 48];
      } else {
        assert p[i] == p[56..64][i - 56];
      }
    }
  }

  lemma TrailerOfDecoded(data: seq<Byte>, m: Market)
    requires Decode(data) == Some(m)
    requires data[157 + |m.question|] < 2
    ensures data[108 + |m.question|..FixedSize + |m.question|] == Trailer(m)
  {
    var L := |m.question|;
    var t := Trailer(m);
    var d := data[108 + L..FixedSize + L];
    SliceOfSlice(data, 108 + L, FixedSize + L, 1, 9);
    SliceOfSlice(data, 108 + L, FixedSize + L, 9, 17);
    SliceOfSlice(data, 108 + L, FixedSize + L, 17, 49);
    SameReading(t[1..9], d[1..9]);
    SameReading(t[9..17], d[9..17]);
    forall i | 0 <= i < 50
      ensures t[i] == d[i]
    {
      if i == 0 {
        assert d[0] == data[108 + L];
      } else if i < 9 {
        assert t[i] == t[1..9][i - 1] && d[i] == d[1..9][i - 1];
      } else if i < 17 {
        assert t[i] == t[9..17][i - 9] && d[i] == d[9..17][i - 9];
      } else if i < 49 {
        assert t[i] == t[17..49][i - 17] && d[i] == d[17..49][i - 17];
      } else {
        assert d[49] == data[157 + L];
      }
    }
  }

  /**
    Re-encoding a decoded record with the buffer's own discriminator rebuilds
    the record's bytes exactly, provided the fee byte was 0 or 1.
   */
  lemma ReencodeRecoversBytes(data: seq<Byte>)
    requires Decode(data).Some?
    requires data[157 + |Decode(data).value.question|] < 2
    ensures EncodeAccount(data[..8], Decode(data).value) == data[..FixedSize + |Decode(data).value.question|]
  {
    var m := Decode(data).value;
    var L := |m.question|;
    HeadOfDecoded(data, m);
    AmountsOfDecoded(data, m);
    TrailerOfDecoded(data, m);
    assert data[..FixedSize + L] == data[..44 + L] + data[44 + L..108 + L] + data[108 + L..FixedSize + L];
  }
}
