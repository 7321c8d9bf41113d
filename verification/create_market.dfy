/**
  The create-market instruction payload built by the submit handler in
  script.js:
    [0,8)            instruction discriminator 67 e2 61 eb c8 bc fb fe
    [8,12)           question length as u32
    [12,12+n)        question bytes
    [12+n,20+n)      resolve time, now + seven days, little-endian
    [20+n,28+n)      liquidity, input * 10^9, little-endian u64
  The wall clock is the parameter `now` (whole seconds since the epoch).
 */
module CreateMarket {
  import opened Wrappers
  import opened Bytes
  import opened Borsh

  /** Identifies the create-market instruction to the program. */
  const Discriminator: seq<Byte> := [0x67, 0xe2, 0x61, 0xeb, 0xc8, 0xbc, 0xfb, 0xfe]

  /** Seven days in seconds: how far in the future a new market resolves. */
  const ResolveDelay: nat := 604800

  /** The token has nine decimals: one whole unit is 10^9 raw units. */
  const LiquidityScale: nat := 1_000_000_000

  /** 2^53: the big-number constructor refuses a JavaScript number this large. */
  const SafeIntegerLimit: nat := 0x20_0000_0000_0000

  /** Why no payload was produced. */
  datatype EncodeError =
    | QuestionTooLong     // the length does not fit the u32 prefix (unreachable from a JavaScript string)
    | ResolveTimeUnsafe   // now + seven days is not a safe integer
    | AmountOverflow      // the scaled amount does not fit in 8 bytes
    | NegativeAmount      // a negative liquidity input

  /** The instruction's arguments as the program reads them. */
  datatype CreateArgs = CreateArgs(question: seq<Byte>, resolveAt: U64, liquidity: U64)

  function Magnitude(x: int): nat
  {
    if x < 0 then -x else x
  }

  /** Where each argument sits in an instruction payload. */
  predicate Payload(p: seq<Byte>, question: seq<Byte>, resolveAt: nat, liquidity: nat)
  {
    var n := |question|;
    && |p| == 8 + 4 + n + 8 + 8
    && p[..8] == Discriminator
    && LeValue(p[8..12]) == n
    && p[12..12 + n] == question
    && LeValue(p[12 + n..20 + n]) == resolveAt
    && LeValue(p[20 + n..]) == liquidity
  }

  /** Writes the arguments in order: discriminator, length-prefixed question, resolve time, liquidity. */
  function Serialize(a: CreateArgs): (p: seq<Byte>)
    requires |a.question| < 0x1_0000_0000
    ensures Payload(p, a.question, a.resolveAt, a.liquidity)
  {
    Pow256Facts();
    var n := |a.question|;
    var front := Discriminator + LeBytes(n, 4) + a.question;
    var times := LeBytes(a.resolveAt, 8) + LeBytes(a.liquidity, 8);
    var p := front + times;
    assert p[..8] == front[..8] && p[8..12] == front[8..12] && p[12..12 + n] == front[12..];
    assert front[8..12] == LeBytes(n, 4);
    assert p[12 + n..20 + n] == times[..8] && p[20 + n..] == times[8..];
    p
  }

  /**
    The payload as the submit handler builds it. A resolve time of 2^53 or
    more and a scaled amount whose magnitude needs more than 8 bytes each
    abort the submission. The sign of the scaled amount is dropped: its
    magnitude is what gets written. A question of 2^32 bytes or more cannot
    come from a JavaScript string; the model treats it as an error rather
    than wrapping its length prefix.
   */
  function EncodeAsWritten(question: seq<Byte>, now: nat, liquidity: int): (r: Result<seq<Byte>, EncodeError>)
    ensures r.Ok? <==>
              && |question| < 0x1_0000_0000
              && now + ResolveDelay < SafeIntegerLimit
              && Magnitude(liquidity * LiquidityScale) < 0x1_0000_0000_0000_0000
    ensures r.Ok? ==> Payload(r.value, question, now + ResolveDelay, Magnitude(liquidity * LiquidityScale))
  {
    var amount := Magnitude(liquidity * LiquidityScale);
    if |question| >= 0x1_0000_0000 then Err(QuestionTooLong)
    else if now + ResolveDelay >= SafeIntegerLimit then Err(ResolveTimeUnsafe)
    else if amount >= 0x1_0000_0000_0000_0000 then Err(AmountOverflow)
    else Ok(Serialize(CreateArgs(question, now + ResolveDelay, amount)))
  }

  /**
    A negative liquidity input is encoded exactly like its positive
    counterpart: the payload asks the program to deposit a positive amount.
   */
  lemma NegativeLiquidityEncodedAsPositive(question: seq<Byte>, now: nat, units: nat)
    requires |question| < 0x1_0000_0000 && now + ResolveDelay < SafeIntegerLimit
    requires 0 < units && units * LiquidityScale < 0x1_0000_0000_0000_0000
    ensures EncodeAsWritten(question, now, -(units as int)).Ok?
    ensures EncodeAsWritten(question, now, -(units as int)) == EncodeAsWritten(question, now, units)
    ensures LeValue(EncodeAsWritten(question, now, -(units as int)).value[20 + |question|..]) == units * LiquidityScale
  {
    assert -(units as int) * LiquidityScale == -(units * LiquidityScale);
  }

  /**
    The payload with the liquidity input required to be non-negative, as
    the layout's unsigned amount intends; otherwise as the submit handler.
   */
  function EncodeCreateMarket(question: seq<Byte>, now: nat, liquidity: int): (r: Result<seq<Byte>, EncodeError>)
    ensures r.Ok? <==>
              && |question| < 0x1_0000_0000
              && now + ResolveDelay < SafeIntegerLimit
              && 0 <= liquidity
              && liquidity * LiquidityScale < 0x1_0000_0000_0000_0000
    ensures r.Ok? ==> Payload(r.value, question, now + ResolveDelay, liquidity * LiquidityScale)
    ensures liquidity < 0 ==> r == Err(NegativeAmount) || r == Err(QuestionTooLong) || r == Err(ResolveTimeUnsafe)
  {
    if |question| >= 0x1_0000_0000 then Err(QuestionTooLong)
    else if now + ResolveDelay >= SafeIntegerLimit then Err(ResolveTimeUnsafe)
    else if liquidity < 0 then Err(NegativeAmount)
    else if liquidity * LiquidityScale >= 0x1_0000_0000_0000_0000 then Err(AmountOverflow)
    else Ok(Serialize(CreateArgs(question, now + ResolveDelay, liquidity * LiquidityScale)))
  }

  /** On non-negative input the corrected encoder and the submit handler agree. */
  lemma EncodersAgreeOnNonNegative(question: seq<Byte>, now: nat, liquidity: nat)
    ensures EncodeCreateMarket(question, now, liquidity) == EncodeAsWritten(question, now, liquidity)
  {
  }

  /** Reads a payload back: the discriminator must match and nothing may follow the liquidity. */
  function ParseCreateMarket(p: seq<Byte>): (r: Option<CreateArgs>)
    ensures r.Some? ==> Payload(p, r.value.question, r.value.resolveAt, r.value.liquidity)
  {
    if |p| < 8 || p[..8] != Discriminator then None
    else
      var len :- ReadU32(p, 8);
      var question :- ReadBytes(p, len.next, len.value);
      var resolveAt :- ReadU64(p, question.next);
      var liquidity :- ReadU64(p, resolveAt.next);
      if liquidity.next != |p| then None
      else
        assert p[resolveAt.next..liquidity.next] == p[resolveAt.next..];
        Some(CreateArgs(question.value, resolveAt.value, liquidity.value))
  }

  /** Parsing a serialized payload gives back its arguments. */
  lemma ParseSerialize(a: CreateArgs)
    requires |a.question| < 0x1_0000_0000
    ensures ParseCreateMarket(Serialize(a)) == Some(a)
  {
    var p := Serialize(a);
    var n := |a.question|;
    assert p[12..12 + n] == a.question;
  }

  /** The arguments fix every byte of a payload. */
  lemma PayloadDeterminesBytes(p: seq<Byte>, q: seq<Byte>, question: seq<Byte>, resolveAt: nat, liquidity: nat)
    requires Payload(p, question, resolveAt, liquidity) && Payload(q, question, resolveAt, liquidity)
    ensures p == q
  {
    var n := |question|;
    SameReading(p[8..12], q[8..12]);
    SameReading(p[12 + n..20 + n], q[12 + n..20 + n]);
    SameReading(p[20 + n..], q[20 + n..]);
    forall i | 0 <= i < |p|
      ensures p[i] == q[i]
    {
      if i < 8 {
        assert p[i] == p[..8][i] && q[i] == q[..8][i];
      } else if i < 12 {
        assert p[i] == p[8..12][i - 8] && q[i] == q[8..12][i - 8];
      } else if i < 12 + n {
        assert p[i] == p[12..12 + n][i - 12] && q[i] == q[12..12 + n][i - 12];
      } else if i < 20 + n {
        assert p[i] == p[12 + n..20 + n][i - 12 - n] && q[i] == q[12 + n..20 + n][i - 12 - n];
      } else {
        assert p[i] == p[20 + n..][i - 20 - n] && q[i] == q[20 + n..][i - 20 - n];
      }
    }
  }

  /** A payload that parses is the serialization of what it parses to. */
  lemma SerializeParse(p: seq<Byte>)
    requires ParseCreateMarket(p).Some?
    ensures |ParseCreateMarket(p).value.question| < 0x1_0000_0000
    ensures Serialize(ParseCreateMarket(p).value) == p
  {
    var a := ParseCreateMarket(p).value;
    LeValueBound(p[8..12]);
    Pow256Facts();
    PayloadDeterminesBytes(Serialize(a), p, a.question, a.resolveAt, a.liquidity);
  }

  /** What the program reads from an accepted payload is the question, now + seven days and input * 10^9. */
  lemma EncodedPayloadParses(question: seq<Byte>, now: nat, liquidity: int)
    requires EncodeCreateMarket(question, now, liquidity).Ok?
    ensures ParseCreateMarket(EncodeCreateMarket(question, now, liquidity).value)
            == Some(CreateArgs(question, now + ResolveDelay, liquidity * LiquidityScale))
  {
    ParseSerialize(CreateArgs(question, now + ResolveDelay, liquidity * LiquidityScale));
  }
}
