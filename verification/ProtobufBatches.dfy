/**
 Batches of length-prefixed protobuf messages
 (src/protocols/airplay/layers/DataStreamChannel.ts, lines 193-211 and 356-416).
 */
module ProtobufBatches {
  import opened Results
  import opened ByteStrings

  // ---- 32-bit words ----

  function Pow2(k: nat): (p: nat)
    ensures p > 0
  {
    if k == 0 then 1 else 2 * Pow2(k - 1)
  }

  const WORD: nat := 0x1_0000_0000

  /** Bitwise or. */
  function Or(a: nat, b: nat): nat
    decreases a
  {
    if a == 0 then b
    else (if a % 2 == 1 || b % 2 == 1 then 1 else 0) + 2 * Or(a / 2, b / 2)
  }

  /** The operators shift by the count modulo 32, and keep 32 bits. */
  function ShiftLeft(n: nat, count: nat): (r: nat)
    ensures r < WORD
  {
    n * Pow2(count % 32) % WORD
  }

  function ToInt32(n: nat): int {
    var word := n % WORD;
    if word < 0x8000_0000 then word else word - WORD
  }

  lemma {:induction false} OrOfDisjoint(a: nat, b: nat, k: nat)
    requires a < Pow2(k)
    ensures Or(a, b * Pow2(k)) == a + b * Pow2(k)
    decreases k
  {
    if a != 0 {
      OrOfDisjoint(a / 2, b, k - 1);
      HalfOfShifted(b, k);
    }
  }

  lemma HalfOfShifted(b: nat, k: nat)
    requires k > 0
    ensures b * Pow2(k) % 2 == 0 && b * Pow2(k) / 2 == b * Pow2(k - 1)
  {
    assert b * Pow2(k) == 2 * (b * Pow2(k - 1)) by {
      assert Pow2(k) == 2 * Pow2(k - 1);
    }
  }

  /** The weight of a varint's digits: none is shifted by 32 or more before the sixth. */
  function Weight(digits: nat): nat
    requires digits <= 4
  {
    match digits
    case 0 => 1
    case 1 => 0x80
    case 2 => 0x4000
    case 3 => 0x20_0000
    case 4 => 0x1000_0000
  }

  lemma WeightIsPow2(digits: nat)
    requires digits <= 4
    ensures Pow2(7 * digits % 32) == Pow2(7 * digits) == Weight(digits)
  {
    Pow2Step(0);
    Pow2Step(7);
    Pow2Step(14);
    Pow2Step(21);
  }

  lemma Pow2Step(k: nat)
    ensures Pow2(k + 7) == 128 * Pow2(k)
  {
    assert Pow2(k + 2) == 2 * Pow2(k + 1);
    assert Pow2(k + 3) == 2 * Pow2(k + 2);
    assert Pow2(k + 4) == 2 * Pow2(k + 3);
    assert Pow2(k + 5) == 2 * Pow2(k + 4);
    assert Pow2(k + 6) == 2 * Pow2(k + 5);
  }

  // ---- Varints ----

  /** `>>>=` keeps 32 bits. */
  function WriteVarint(value: nat): (r: Bytes)
    ensures r != []
    decreases value
  {
    if value > 0x7f then [value % 128 + 128] + WriteVarint(value % WORD / 128) else [value]
  }

  datatype VarintError = TooLong | Incomplete

  /** The value as a 32-bit word, and the bytes read. */
  function ReadVarintFrom(data: Bytes, value: nat, shift: nat): Result<(int, nat), VarintError>
    decreases |data|
  {
    if data == [] then Err(Incomplete)
    else
      var word := Or(value, ShiftLeft(data[0] % 128, shift));
      if data[0] < 128 then Ok((ToInt32(word), 1))
      else if shift + 7 > 35 then Err(TooLong)
      else
        match ReadVarintFrom(data[1..], word, shift + 7)
        case Err(e) => Err(e)
        case Ok((v, n)) => Ok((v, n + 1))
  }

  function ReadVarint(data: Bytes): Result<(int, nat), VarintError> {
    ReadVarintFrom(data, 0, 0)
  }

  lemma {:induction false} ReadVarintLength(data: Bytes, value: nat, shift: nat)
    ensures var r := ReadVarintFrom(data, value, shift); r.Ok? ==> 0 < r.value.1 <= |data|
    decreases |data|
  {
    if data != [] && data[0] >= 128 && shift + 7 <= 35 {
      ReadVarintLength(data[1..], Or(value, ShiftLeft(data[0] % 128, shift)), shift + 7);
    }
  }

  lemma WriteVarintStep(v: nat)
    ensures WriteVarint(v) == if v > 0x7f then [v % 128 + 128] + WriteVarint(v % WORD / 128) else [v]
  {
  }

  lemma ReadVarintStep(data: Bytes, value: nat, shift: nat)
    requires data != []
    ensures
      var word := Or(value, ShiftLeft(data[0] % 128, shift));
      ReadVarintFrom(data, value, shift) ==
      if data[0] < 128 then Ok((ToInt32(word), 1))
      else if shift + 7 > 35 then Err(TooLong)
      else
        match ReadVarintFrom(data[1..], word, shift + 7)
        case Err(e) => Err(e)
        case Ok((v, n)) => Ok((v, n + 1))
  {
  }

  /** 7-bit digits, least significant first; `digits` of them have been read. */
  lemma {:induction false} ReadWritten(n: nat, value: nat, digits: nat, rest: Bytes)
    requires digits <= 4 && value < Weight(digits)
    requires digits > 0 ==> n < WORD / Weight(digits)
    ensures ReadVarintFrom(WriteVarint(n) + rest, value, 7 * digits)
         == Ok((ToInt32(value + n * Weight(digits)), |WriteVarint(n)|))
    decreases 4 - digits
  {
    hide Or, ShiftLeft, ToInt32, Weight, ReadVarintFrom, WriteVarint;
    WriteVarintStep(n);
    var written := WriteVarint(n) + rest;
    var digit := n % 128;
    assert written[0] % 128 == digit;
    ReadVarintStep(written, value, 7 * digits);
    OrDigit(value, digit, digits);
    if n > 0x7f {
      var more := n % WORD / 128;
      assert written[1..] == WriteVarint(more) + rest;
      NextDigit(n, value, digits);
      ReadWritten(more, Or(value, ShiftLeft(digit, 7 * digits)), digits + 1, rest);
    }
  }

  /** Bits of a digit that do not fit the word are lost. */
  lemma OrDigit(value: nat, digit: nat, digits: nat)
    requires digits <= 4 && value < Weight(digits) && digit < 128
    ensures var word := Or(value, ShiftLeft(digit, 7 * digits));
            && ToInt32(word) == ToInt32(value + digit * Weight(digits))
            && (digits < 4 ==> word == value + digit * Weight(digits) < Weight(digits + 1))
  {
    hide Or, Pow2, ToInt32;
    WeightIsPow2(digits);
    var kept := if digits < 4 then digit else digit % 16;
    OrOfDisjoint(value, kept, 7 * digits);
    if digits == 4 {
      LastDigit(value, digit);
    } else {
      FullDigit(value, digit, digits);
    }
  }

  lemma FullDigit(value: nat, digit: nat, digits: nat)
    requires digits < 4 && value < Weight(digits) && digit < 128
    ensures ShiftLeft(digit, 7 * digits) == digit * Pow2(7 * digits)
    ensures value + digit * Weight(digits) < Weight(digits + 1)
  {
    hide Pow2;
    WeightIsPow2(digits);
    match digits
    case 0 =>
    case 1 =>
    case 2 =>
    case 3 =>
  }

  lemma LastDigit(value: nat, digit: nat)
    requires value < Weight(4) && digit < 128
    ensures ShiftLeft(digit, 28) == digit % 16 * Pow2(28)
    ensures ToInt32(value + digit % 16 * Weight(4)) == ToInt32(value + digit * Weight(4))
  {
    hide Pow2;
    WeightIsPow2(4);
    var q, r := digit / 16, digit % 16;
    assert digit * Weight(4) == r * Weight(4) + q * WORD;
    assert digit * Weight(4) % WORD == r * Weight(4);
  }

  lemma NextDigit(n: nat, value: nat, digits: nat)
    requires n > 0x7f && digits <= 4 && (digits > 0 ==> n < WORD / Weight(digits))
    ensures digits < 4
    ensures var more := n % WORD / 128;
            && more < WORD / Weight(digits + 1)
            && ToInt32(value + n % 128 * Weight(digits) + more * Weight(digits + 1))
                == ToInt32(value + n * Weight(digits))
  {
    hide ToInt32;
    assert digits < 4;
    if digits == 0 {
      SecondDigit(n, value);
    } else {
      LaterDigit(n, value, digits);
    }
  }

  lemma SecondDigit(n: nat, value: nat)
    ensures n % WORD / 128 < WORD / Weight(1)
    ensures ToInt32(value + n % 128 + n % WORD / 128 * Weight(1)) == ToInt32(value + n)
  {
    var w := n % WORD;
    LowDigit(n / WORD, w);
    assert n == n / WORD * WORD + w;
    SameWord(value, n / WORD, w);
  }

  lemma LowDigit(q: nat, w: nat)
    ensures (q * WORD + w) % 128 == w % 128
  {
    assert q * WORD + w == 128 * (q * 0x200_0000) + w;
  }

  lemma SameWord(value: nat, q: nat, w: nat)
    ensures ToInt32(value + w) == ToInt32(value + (q * WORD + w))
  {
    assert value + (q * WORD + w) == q * WORD + (value + w);
    assert (q * WORD + (value + w)) % WORD == (value + w) % WORD;
  }

  lemma LaterDigit(n: nat, value: nat, digits: nat)
    requires 0 < digits < 4 && n < WORD / Weight(digits)
    ensures n % WORD / 128 < WORD / Weight(digits + 1)
    ensures value + n % 128 * Weight(digits) + n % WORD / 128 * Weight(digits + 1) == value + n * Weight(digits)
  {
    var low, more := n % 128, n / 128;
    assert n == low + 128 * more;
    match digits
    case 1 => assert n % WORD == n && low * 0x80 + more * 0x4000 == n * 0x80;
    case 2 => assert n % WORD == n && low * 0x4000 + more * 0x20_0000 == n * 0x4000;
    case 3 => assert n % WORD == n && low * 0x20_0000 + more * 0x1000_0000 == n * 0x20_0000;
  }

  /** Reading back a length gives it as a signed 32-bit number: it is the length below 2^31 and no further. */
  lemma VarintRoundTrip(n: nat, rest: Bytes)
    ensures ReadVarint(WriteVarint(n) + rest) == Ok((ToInt32(n), |WriteVarint(n)|))
    ensures ToInt32(n) == n <==> n < 0x8000_0000
  {
    hide WriteVarint, ReadVarintFrom;
    ReadWritten(n, 0, 0, rest);
  }

  /** What seven-bit digits add up to, least significant first. */
  function DigitSum(s: Bytes): nat {
    if s == [] then 0 else s[0] as int % 128 + 128 * DigitSum(s[1..])
  }

  /** The usual form: seven bits in each byte, the top bit set in all but the last. */
  lemma {:induction false} VarintBytes(n: nat)
    requires n < WORD
    ensures
      var s := WriteVarint(n);
      && (forall i | 0 <= i < |s| :: s[i] >= 128 <==> i < |s| - 1)
      && DigitSum(s) == n
      && (|s| > 1 ==> s[|s| - 1] > 0)
    decreases n
  {
    hide WriteVarint;
    WriteVarintStep(n);
    if n > 0x7f {
      VarintBytes(n / 128);
      var rest := WriteVarint(n / 128);
      var s := [n % 128 + 128] + rest;
      assert s[1..] == rest && s[0] as int % 128 == n % 128;
      if |rest| == 1 {
        SingleDigit(rest);
      }
    } else {
      assert [n][1..] == [];
    }
  }

  lemma SingleDigit(s: Bytes)
    requires |s| == 1 && s[0] < 128
    ensures DigitSum(s) == s[0]
  {
    assert s[1..] == [];
  }

  // ---- Batches ----

  const NOT_PREFIXED: Byte := 0x08

  function EncodeProtobufs(messages: seq<Bytes>): Bytes {
    if messages == [] then []
    else WriteVarint(|messages[0]|) + messages[0] + EncodeProtobufs(messages[1..])
  }

  /** What `subarray` makes of a bound: a negative one counts from the end. */
  function Place(i: int, length: nat): (p: nat)
    ensures p <= length
  {
    if i < 0 then (if length + i < 0 then 0 else length + i) else if i > length then length else i
  }

  function Subarray(data: Bytes, from: int, to: int): Bytes {
    var a, b := Place(from, |data|), Place(to, |data|);
    if a <= b then data[a..b] else []
  }

  /** In front of the buffer there are no bytes; what is read there counts as a zero. */
  /** Indices below zero count from the end, those beyond either end stop there, and crossed ones hold nothing. */
  lemma SubarrayIs(front: Bytes, middle: Bytes, back: Bytes, beyond: nat)
    requires back != []
    ensures
      var data, k := front + middle + back, |front|;
      && Subarray(data, k, k + |middle|) == middle
      && Subarray(data, -|middle| - |back|, -|back|) == middle
      && Subarray(data, k, -|back|) == middle
      && Subarray(data, -|middle| - |back|, |data| + beyond) == middle + back
      && Subarray(data, -|data| - beyond, k) == front
    ensures forall data, from, to | 0 <= to <= from :: Subarray(data, from, to) == []
  {
    var data, k := front + middle + back, |front|;
    assert data[k..k + |middle|] == middle && data[k..] == middle + back && data[..k] == front;
  }

  function ReadVarintIn(data: Bytes, offset: int): (r: Result<(int, nat), VarintError>)
    requires offset <= |data|
    ensures r.Ok? ==> 0 < r.value.1 && offset + r.value.1 <= |data|
  {
    if offset == |data| then Err(Incomplete)
    else if offset < 0 then Ok((0, 1))
    else
      ReadVarintLength(data[offset..], 0, 0);
      ReadVarint(data[offset..])
  }

  /** A round of the loop: it ends it, perhaps with a last message, or moves on, perhaps backwards. */
  datatype Round = Stop(last: seq<Bytes>) | Move(offset: int, message: Bytes)

  function DecodeRound(data: Bytes, offset: int): Round
    requires offset < |data|
  {
    if offset >= 0 && data[offset] == NOT_PREFIXED then Stop([data[offset..]])
    else
      match ReadVarintIn(data, offset)
      case Err(_) => Stop([])
      case Ok((length, bytesRead)) =>
        var from := offset + bytesRead;
        if from + length > |data| then Stop([]) else Move(from + length, Subarray(data, from, from + length))
  }

  /** The messages from an offset on, if the loop ends within so many rounds. */
  function Decoded(data: Bytes, offset: int, rounds: nat): Option<seq<Bytes>>
    decreases rounds
  {
    if offset >= |data| then Some([])
    else if rounds == 0 then None
    else
      match DecodeRound(data, offset)
      case Stop(last) => Some(last)
      case Move(next, message) =>
        match Decoded(data, next, rounds - 1)
        case None => None
        case Some(more) => Some([message] + more)
  }

  /** The loop ends. */
  ghost predicate Ends(data: Bytes) {
    exists rounds: nat :: Decoded(data, 0, rounds).Some?
  }

  /** As many rounds as there are bytes decide whether it does. */
  function DecodeProtobufs(data: Bytes): Option<seq<Bytes>> {
    Decoded(data, 0, |data|)
  }

  // ---- When the loop ends ----

  lemma {:induction false} MoreRounds(data: Bytes, offset: int, a: nat, b: nat)
    requires a <= b && Decoded(data, offset, a).Some?
    ensures Decoded(data, offset, b) == Decoded(data, offset, a)
    decreases a
  {
    hide DecodeRound;
    if offset < |data| {
      match DecodeRound(data, offset) {
        case Move(next, _) => MoreRounds(data, next, a - 1, b - 1);
        case Stop(_) =>
      }
    }
  }

  /** It takes exactly this many rounds. */
  ghost predicate Takes(data: Bytes, offset: int, rounds: nat) {
    Decoded(data, offset, rounds).Some? && (rounds > 0 ==> Decoded(data, offset, rounds - 1).None?)
  }

  lemma {:induction false} Fewest(data: Bytes, offset: int, enough: nat) returns (rounds: nat)
    requires Decoded(data, offset, enough).Some?
    ensures rounds <= enough && Takes(data, offset, rounds)
    decreases enough
  {
    if enough > 0 && Decoded(data, offset, enough - 1).Some? {
      rounds := Fewest(data, offset, enough - 1);
    } else {
      rounds := enough;
    }
  }

  lemma TakesOnce(data: Bytes, offset: int, a: nat, b: nat)
    requires Takes(data, offset, a) && Takes(data, offset, b)
    ensures a == b
  {
    hide Decoded;
    if a < b {
      MoreRounds(data, offset, a, b - 1);
    } else if b < a {
      MoreRounds(data, offset, b, a - 1);
    }
  }

  lemma NextTakes(data: Bytes, offset: int, rounds: nat)
    requires Takes(data, offset, rounds) && rounds > 0
    ensures offset < |data|
    ensures
      match DecodeRound(data, offset)
      case Stop(_) => rounds == 1
      case Move(next, _) => Takes(data, next, rounds - 1)
  {
    hide DecodeRound;
  }

  /** From in front of the buffer the loop climbs back to its beginning. */
  lemma {:induction false} Climbs(data: Bytes, offset: int, rounds: nat)
    requires offset <= 0 && Takes(data, offset, rounds)
    ensures rounds + offset >= 0 && Takes(data, 0, rounds + offset)
    decreases -offset
  {
    if offset < 0 {
      NextTakes(data, offset, rounds);
      Climbs(data, offset + 1, rounds - 1);
    }
  }

  ghost function Visited(data: Bytes, offset: int, rounds: nat): set<int>
    requires Takes(data, offset, rounds)
    decreases rounds
  {
    if rounds == 0 then {}
    else
      NextTakes(data, offset, rounds);
      match DecodeRound(data, offset)
      case Stop(_) => {offset}
      case Move(next, _) => {offset} + Visited(data, next, rounds - 1)
  }

  /** A loop that ends is never twice at one offset. */
  lemma {:induction false} VisitedOnce(data: Bytes, offset: int, rounds: nat)
    requires Takes(data, offset, rounds)
    ensures |Visited(data, offset, rounds)| == rounds
    ensures forall h | h in Visited(data, offset, rounds) ::
              h < |data| && exists j: nat :: 0 < j <= rounds && Takes(data, h, j)
    decreases rounds
  {
    hide DecodeRound, Takes;
    if rounds > 0 {
      NextTakes(data, offset, rounds);
      match DecodeRound(data, offset) {
        case Stop(_) =>
        case Move(next, _) =>
          VisitedOnce(data, next, rounds - 1);
          if offset in Visited(data, next, rounds - 1) {
            var j: nat :| 0 < j <= rounds - 1 && Takes(data, offset, j);
            TakesOnce(data, offset, j, rounds);
          }
      }
    }
  }

  lemma {:induction false} AtMost(s: set<int>, n: nat)
    requires forall i | i in s :: i < n
    requires forall i | i in s :: i >= 0
    ensures |s| <= n
    decreases n
  {
    if n == 0 {
      assert forall i | i in s :: false;
      assert s == {};
    } else {
      AtMost(s - {n - 1}, n - 1);
    }
  }

  /** The loop ends if and only if it has ended after as many rounds as there are bytes. */
  lemma EndsIsDecided(data: Bytes)
    ensures Ends(data) <==> DecodeProtobufs(data).Some?
    ensures forall rounds: nat :: Decoded(data, 0, rounds).Some? ==> Decoded(data, 0, rounds) == DecodeProtobufs(data)
  {
    hide Decoded, Visited;
    forall enough: nat | Decoded(data, 0, enough).Some?
      ensures Decoded(data, 0, enough) == DecodeProtobufs(data)
    {
      EndsInTime(data, enough);
    }
  }

  lemma EndsInTime(data: Bytes, enough: nat)
    requires Decoded(data, 0, enough).Some?
    ensures Decoded(data, 0, enough) == DecodeProtobufs(data)
  {
    hide Decoded, Visited, Takes;
    var rounds := Fewest(data, 0, enough);
    VisitedOnce(data, 0, rounds);
    forall h | h in Visited(data, 0, rounds) ensures h >= 0 {
      if h < 0 {
        var j: nat :| 0 < j <= rounds && Takes(data, h, j);
        Climbs(data, h, j);
        TakesOnce(data, 0, j + h, rounds);
      }
    }
    AtMost(Visited(data, 0, rounds), |data|);
    TakesMeans(data, 0, rounds);
    MoreRounds(data, 0, rounds, |data|);
    MoreRounds(data, 0, rounds, enough);
  }

  lemma TakesMeans(data: Bytes, offset: int, rounds: nat)
    requires Takes(data, offset, rounds)
    ensures Decoded(data, offset, rounds).Some?
  {
  }

  // ---- Lengths that move on ----

  /** No length that is read is 2^31 or more. */
  predicate Forward(data: Bytes)
    decreases |data|
  {
    data == [] || data[0] == NOT_PREFIXED ||
    match ReadVarint(data)
    case Err(_) => true
    case Ok((length, bytesRead)) =>
      ReadVarintLength(data, 0, 0);
      length >= 0 && (bytesRead + length > |data| || Forward(data[bytesRead + length..]))
  }

  function DecodeForward(data: Bytes): seq<Bytes>
    requires Forward(data)
    decreases |data|
  {
    if data == [] then []
    else if data[0] == NOT_PREFIXED then [data]
    else
      match ReadVarint(data)
      case Err(_) => []
      case Ok((length, bytesRead)) =>
        ReadVarintLength(data, 0, 0);
        if bytesRead + length > |data| then []
        else [data[bytesRead..bytesRead + length]] + DecodeForward(data[bytesRead + length..])
  }

  lemma ForwardRound(data: Bytes, offset: nat)
    requires offset < |data| && Forward(data[offset..])
    ensures
      match DecodeRound(data, offset)
      case Stop(last) => DecodeForward(data[offset..]) == last
      case Move(next, message) =>
        && offset < next <= |data| && Forward(data[next..])
        && DecodeForward(data[offset..]) == [message] + DecodeForward(data[next..])
  {
    hide ReadVarint, Forward, DecodeForward;
    var rest := data[offset..];
    ForwardStep(rest);
    if data[offset] != NOT_PREFIXED {
      match ReadVarint(rest) {
        case Err(_) =>
        case Ok((length, bytesRead)) =>
          var from := offset + bytesRead;
          if bytesRead + length <= |rest| {
            assert rest[bytesRead..bytesRead + length] == data[from..from + length];
            assert rest[bytesRead + length..] == data[from + length..];
          }
      }
    }
  }

  lemma ForwardStep(rest: Bytes)
    requires rest != [] && Forward(rest)
    ensures
      if rest[0] == NOT_PREFIXED then DecodeForward(rest) == [rest]
      else
        match ReadVarint(rest)
        case Err(_) => DecodeForward(rest) == []
        case Ok((length, bytesRead)) =>
          && length >= 0 && 0 < bytesRead <= |rest|
          && if bytesRead + length > |rest| then DecodeForward(rest) == []
             else
               && Forward(rest[bytesRead + length..])
               && DecodeForward(rest)
                  == [rest[bytesRead..bytesRead + length]] + DecodeForward(rest[bytesRead + length..])
  {
    hide ReadVarintFrom;
    ReadVarintLength(rest, 0, 0);
  }

  lemma {:induction false} DecodedForward(data: Bytes, offset: nat, rounds: nat)
    requires offset <= |data| && rounds >= |data| - offset && Forward(data[offset..])
    ensures Decoded(data, offset, rounds) == Some(DecodeForward(data[offset..]))
    decreases rounds
  {
    hide DecodeRound, Forward, DecodeForward;
    if offset < |data| {
      ForwardRound(data, offset);
      match DecodeRound(data, offset) {
        case Move(next, _) => DecodedForward(data, next, rounds - 1);
        case Stop(_) =>
      }
    } else {
      NothingForward(data[offset..]);
    }
  }

  lemma NothingForward(data: Bytes)
    requires data == []
    ensures Forward(data) && DecodeForward(data) == []
  {
  }

  /** What a caller can look at: when every length that is read is below 2^31, the loop ends. */
  lemma ForwardEnds(data: Bytes)
    requires Forward(data)
    ensures Ends(data) && DecodeProtobufs(data) == Some(DecodeForward(data))
  {
    assert data[0..] == data;
    DecodedForward(data, 0, |data|);
  }

  // ---- Round trips ----

  lemma OneProtobuf(message: Bytes, rest: Bytes)
    requires |message| < 0x8000_0000
    ensures
      var data := WriteVarint(|message|) + message + rest;
      if |message| == NOT_PREFIXED then data[0] == NOT_PREFIXED && Forward(data) && DecodeForward(data) == [data]
      else Forward(rest) ==> Forward(data) && DecodeForward(data) == [message] + DecodeForward(rest)
  {
    hide ReadVarintFrom;
    var prefix := WriteVarint(|message|);
    var data := prefix + message + rest;
    assert data[0] == prefix[0];
    if |message| != NOT_PREFIXED {
      assert data == prefix + (message + rest);
      VarintRoundTrip(|message|, message + rest);
      assert data[|prefix|..|prefix| + |message|] == message;
      assert data[|prefix| + |message|..] == rest;
    }
  }

  /** Messages come back one for one up to the first of length 8, which swallows all that follow. */
  lemma {:induction false} BatchUpToFirstEight(messages: seq<Bytes>, i: nat)
    requires forall m | m in messages :: |m| < 0x8000_0000
    requires i <= |messages|
    requires forall j | 0 <= j < i :: |messages[j]| != NOT_PREFIXED
    requires i < |messages| ==> |messages[i]| == NOT_PREFIXED
    ensures Forward(EncodeProtobufs(messages))
    ensures DecodeProtobufs(EncodeProtobufs(messages))
         == Some(messages[..i] + if i < |messages| then [EncodeProtobufs(messages[i..])] else [])
  {
    ForwardUpToFirstEight(messages, i);
    ForwardEnds(EncodeProtobufs(messages));
  }

  lemma {:induction false} ForwardUpToFirstEight(messages: seq<Bytes>, i: nat)
    requires forall m | m in messages :: |m| < 0x8000_0000
    requires i <= |messages|
    requires forall j | 0 <= j < i :: |messages[j]| != NOT_PREFIXED
    requires i < |messages| ==> |messages[i]| == NOT_PREFIXED
    ensures Forward(EncodeProtobufs(messages))
    ensures DecodeForward(EncodeProtobufs(messages))
         == messages[..i] + if i < |messages| then [EncodeProtobufs(messages[i..])] else []
    decreases |messages|
  {
    hide ReadVarint, WriteVarint, Forward, DecodeForward;
    if messages == [] {
      NothingForward(EncodeProtobufs(messages));
    } else {
      assert messages[0] in messages;
      OneProtobuf(messages[0], EncodeProtobufs(messages[1..]));
      if i > 0 {
        ForwardUpToFirstEight(messages[1..], i - 1);
        assert messages[1..][i - 1..] == messages[i..];
        assert [messages[0]] + messages[1..][..i - 1] == messages[..i];
      }
    }
  }

  /** The round trip holds exactly for batches without a message of length 8. */
  lemma BatchRoundTrip(messages: seq<Bytes>)
    requires forall m | m in messages :: |m| < 0x8000_0000
    ensures DecodeProtobufs(EncodeProtobufs(messages)) == Some(messages)
            <==> forall m | m in messages :: |m| != NOT_PREFIXED
  {
    hide DecodeProtobufs;
    if i :| 0 <= i < |messages| && |messages[i]| == NOT_PREFIXED
            && forall j | 0 <= j < i :: |messages[j]| != NOT_PREFIXED {
      BatchUpToFirstEight(messages, i);
      var swallowed := EncodeProtobufs(messages[i..]);
      assert messages[i..][0] == messages[i];
      assert |swallowed| > NOT_PREFIXED;
      assert (messages[..i] + [swallowed])[i] == swallowed;
      assert messages[i] in messages;
    } else {
      NoFirst(messages, |messages|);
      BatchUpToFirstEight(messages, |messages|);
      assert messages[..|messages|] + [] == messages;
    }
  }

  lemma {:induction false} NoFirst(messages: seq<Bytes>, n: nat)
    requires n <= |messages|
    requires forall i | 0 <= i < |messages| && |messages[i]| == NOT_PREFIXED ::
               exists j | 0 <= j < i :: |messages[j]| == NOT_PREFIXED
    ensures forall i | 0 <= i < n :: |messages[i]| != NOT_PREFIXED
  {
    if n > 0 {
      NoFirst(messages, n - 1);
    }
  }

  // ---- Lengths that move back ----

  /** Where a number of rounds leads, if none of them ends the loop. */
  function MovedTo(data: Bytes, offset: int, rounds: nat): Option<int>
    decreases rounds
  {
    if rounds == 0 then Some(offset)
    else if offset >= |data| then None
    else
      match DecodeRound(data, offset)
      case Stop(_) => None
      case Move(next, _) => MovedTo(data, next, rounds - 1)
  }

  lemma {:induction false} DecodedFrom(data: Bytes, offset: int, moves: nat, rounds: nat)
    requires MovedTo(data, offset, moves).Some? && Decoded(data, offset, rounds).Some?
    ensures moves <= rounds && Decoded(data, MovedTo(data, offset, moves).value, rounds - moves).Some?
    decreases moves
  {
    hide DecodeRound;
    if moves > 0 {
      DecodedFrom(data, DecodeRound(data, offset).offset, moves - 1, rounds - 1);
    }
  }

  lemma {:induction false} MovedOn(data: Bytes, offset: int, a: nat, b: nat)
    requires MovedTo(data, offset, a).Some?
    ensures MovedTo(data, offset, a + b) == MovedTo(data, MovedTo(data, offset, a).value, b)
    decreases a
  {
    hide DecodeRound;
    if a > 0 {
      MovedOn(data, DecodeRound(data, offset).offset, a - 1, b);
    }
  }

  lemma {:induction false} InCircles(data: Bytes, offset: int, moves: nat, rounds: nat)
    requires moves > 0 && MovedTo(data, offset, moves) == Some(offset)
    ensures Decoded(data, offset, rounds).None?
    decreases rounds
  {
    hide Decoded, MovedTo;
    if Decoded(data, offset, rounds).Some? {
      DecodedFrom(data, offset, moves, rounds);
      InCircles(data, offset, moves, rounds - moves);
    }
  }

  /** A loop that comes back to an offset never ends. */
  lemma ComesBack(data: Bytes, to: nat, offset: int, moves: nat)
    requires MovedTo(data, 0, to) == Some(offset) && moves > 0 && MovedTo(data, offset, moves) == Some(offset)
    ensures !Ends(data)
  {
    hide Decoded, MovedTo;
    forall rounds: nat ensures Decoded(data, 0, rounds).None? {
      if Decoded(data, 0, rounds).Some? {
        DecodedFrom(data, 0, to, rounds);
        InCircles(data, offset, moves, rounds - to);
      }
    }
  }

  lemma {:induction false} MovesUp(data: Bytes, offset: int)
    requires offset <= 0
    ensures MovedTo(data, offset, -offset) == Some(0)
    decreases -offset
  {
    if offset < 0 {
      MovesUp(data, offset + 1);
    }
  }

  /** The loop is at one offset twice. */
  ghost predicate Repeats(data: Bytes) {
    exists a: nat, b: nat :: a < b && MovedTo(data, 0, a).Some? && MovedTo(data, 0, b) == MovedTo(data, 0, a)
  }

  lemma {:induction false} StillGoing(data: Bytes, offset: int, rounds: nat, r: nat)
    requires Decoded(data, offset, rounds).None? && r <= rounds
    ensures MovedTo(data, offset, r).Some? && MovedTo(data, offset, r).value < |data|
    decreases r
  {
    hide DecodeRound;
    if r > 0 {
      StillGoing(data, DecodeRound(data, offset).offset, rounds - 1, r - 1);
    }
  }

  ghost function Trail(data: Bytes, n: nat): set<int>
    requires forall r: nat | r < n :: MovedTo(data, 0, r).Some?
  {
    if n == 0 then {} else Trail(data, n - 1) + {MovedTo(data, 0, n - 1).value}
  }

  ghost predicate Passes(data: Bytes, n: nat, h: int) {
    exists r: nat :: r < n && MovedTo(data, 0, r).Some? && MovedTo(data, 0, r).value == h
  }

  lemma PassesMore(data: Bytes, n: nat, h: int)
    requires n > 0 && MovedTo(data, 0, n - 1).Some?
    ensures Passes(data, n, h) <==> Passes(data, n - 1, h) || h == MovedTo(data, 0, n - 1).value
  {
    hide MovedTo;
  }

  lemma {:induction false} TrailSize(data: Bytes, n: nat)
    requires !Repeats(data) && forall r: nat | r < n :: MovedTo(data, 0, r).Some?
    ensures |Trail(data, n)| == n
    ensures forall h | h in Trail(data, n) :: Passes(data, n, h)
  {
    hide MovedTo, Passes, Repeats;
    if n > 0 {
      TrailSize(data, n - 1);
      var last := MovedTo(data, 0, n - 1).value;
      if last in Trail(data, n - 1) {
        PassedAgain(data, n - 1);
      }
      forall h | h in Trail(data, n) ensures Passes(data, n, h) {
        PassesMore(data, n, h);
      }
    }
  }

  lemma PassedAgain(data: Bytes, n: nat)
    requires MovedTo(data, 0, n).Some? && Passes(data, n, MovedTo(data, 0, n).value)
    ensures Repeats(data)
  {
    hide MovedTo;
  }

  /** The loop ends if and only if it is never twice at one offset. */
  lemma EndsUnlessItRepeats(data: Bytes)
    ensures Ends(data) <==> !Repeats(data)
  {
    hide MovedTo, Decoded, Trail, Ends, Repeats;
    EndsIsDecided(data);
    if Repeats(data) {
      RepeatsNeverEnds(data);
    } else if DecodeProtobufs(data).None? {
      ManyOffsets(data);
    }
  }

  lemma RepeatsNeverEnds(data: Bytes)
    requires Repeats(data)
    ensures !Ends(data)
  {
    hide MovedTo;
    var a: nat, b: nat :| a < b && MovedTo(data, 0, a).Some? && MovedTo(data, 0, b) == MovedTo(data, 0, a);
    MovedOn(data, 0, a, b - a);
    ComesBack(data, a, MovedTo(data, 0, a).value, b - a);
  }

  lemma ManyOffsets(data: Bytes)
    requires DecodeProtobufs(data).None?
    ensures Repeats(data)
  {
    hide MovedTo, Decoded, Trail;
    if !Repeats(data) {
      forall r: nat | r < |data| + 1
        ensures MovedTo(data, 0, r).Some? && 0 <= MovedTo(data, 0, r).value < |data|
      {
        StillGoing(data, 0, |data|, r);
        if MovedTo(data, 0, r).value < 0 {
          InFront(data, r);
        }
      }
      TrailSize(data, |data| + 1);
      var trail := Trail(data, |data| + 1);
      forall h | h in trail ensures 0 <= h < |data| {
        assert Passes(data, |data| + 1, h);
      }
      AtMost(trail, |data|);
    }
  }

  lemma InFront(data: Bytes, r: nat)
    requires MovedTo(data, 0, r).Some? && MovedTo(data, 0, r).value < 0
    ensures Repeats(data)
  {
    hide MovedTo;
    var offset := MovedTo(data, 0, r).value;
    MovesUp(data, offset);
    MovedOn(data, 0, r, -offset);
    NotMoved(data);
    assert MovedTo(data, 0, 0).Some? && MovedTo(data, 0, r + -offset) == MovedTo(data, 0, 0);
  }

  lemma NotMoved(data: Bytes)
    ensures MovedTo(data, 0, 0) == Some(0)
  {
  }

  /** The length -n. */
  function Minus(n: nat): Bytes
    requires 0 < n <= 0x8000_0000
  {
    WriteVarint(WORD - n)
  }

  lemma WriteWordStep(v: nat)
    requires v < WORD
    ensures WriteVarint(v) == if v > 0x7f then [v % 128 + 128] + WriteVarint(v / 128) else [v]
  {
    hide WriteVarint;
    WriteVarintStep(v);
  }

  lemma {:induction false} WrittenDigits(v: nat, digits: nat)
    requires digits <= 4 && v < WORD && Weight(digits) <= v < 128 * Weight(digits)
    ensures |WriteVarint(v)| == digits + 1
    ensures digits > 0 ==> WriteVarint(v)[0] >= 128
    decreases digits
  {
    hide WriteVarint;
    WriteWordStep(v);
    if digits > 0 {
      WrittenDigits(v / 128, digits - 1);
    }
  }

  lemma MinusIs(n: nat, rest: Bytes)
    requires 0 < n <= 0x8000_0000
    ensures |Minus(n)| == 5 && Minus(n)[0] >= 128
    ensures var r := ReadVarint(Minus(n) + rest); r.Ok? && r.value.0 + n == 0 && r.value.1 == 5
  {
    hide WriteVarint, ReadVarint;
    VarintRoundTrip(WORD - n, rest);
    WrittenDigits(WORD - n, 4);
  }

  lemma RoundBack(before: Bytes, n: nat, rest: Bytes)
    requires 0 < n <= 0x8000_0000
    ensures
      var data, offset := before + Minus(n) + rest, |before|;
      && offset < |data|
      && DecodeRound(data, offset).Move? && DecodeRound(data, offset).offset == offset + 5 - n
  {
    hide ReadVarint;
    MinusIs(n, rest);
    var data := before + Minus(n) + rest;
    assert data[|before|..] == Minus(n) + rest;
    assert data[|before|] == Minus(n)[0];
  }

  lemma RoundOverMessage(before: Bytes, message: Bytes, rest: Bytes)
    requires |message| < 0x8000_0000 && |message| != NOT_PREFIXED
    ensures
      var data, offset := before + (WriteVarint(|message|) + message + rest), |before|;
      && offset < |data|
      && DecodeRound(data, offset).Move?
      && DecodeRound(data, offset).offset == offset + |WriteVarint(|message|) + message|
  {
    hide ReadVarint;
    var prefix := WriteVarint(|message|);
    WriteVarintStep(|message|);
    var data := before + (prefix + message + rest);
    VarintRoundTrip(|message|, message + rest);
    assert data[|before|..] == prefix + (message + rest);
    assert data[|before|] == prefix[0];
  }

  /** A batch is passed over message by message, wherever it is. */
  lemma {:induction false} MovesOverBatch(before: Bytes, messages: seq<Bytes>, rest: Bytes)
    requires forall m | m in messages :: |m| < 0x8000_0000 && |m| != NOT_PREFIXED
    ensures MovedTo(before + EncodeProtobufs(messages) + rest, |before|, |messages|)
         == Some(|before| + |EncodeProtobufs(messages)|)
    decreases |messages|
  {
    hide DecodeRound, WriteVarint;
    if messages != [] {
      var m, more := messages[0], messages[1..];
      assert m in messages;
      var first := WriteVarint(|m|) + m;
      var data := before + EncodeProtobufs(messages) + rest;
      assert data == before + (first + (EncodeProtobufs(more) + rest));
      assert data == (before + first) + EncodeProtobufs(more) + rest;
      RoundOverMessage(before, m, EncodeProtobufs(more) + rest);
      MovesOverBatch(before + first, more, rest);
    }
  }

  lemma {:induction false} EncodeAppend(a: seq<Bytes>, b: seq<Bytes>)
    ensures EncodeProtobufs(a + b) == EncodeProtobufs(a) + EncodeProtobufs(b)
    decreases |a|
  {
    hide WriteVarint;
    if a == [] {
      assert a + b == b;
    } else {
      assert (a + b)[1..] == a[1..] + b;
      EncodeAppend(a[1..], b);
    }
  }

  /**
   Behind any messages, a length that leads back to the beginning of one of them, or to itself: the
   loop never ends.
   */
  lemma BackToMessageNeverEnds(messages: seq<Bytes>, i: nat, rest: Bytes)
    requires forall m | m in messages :: |m| < 0x8000_0000 && |m| != NOT_PREFIXED
    requires i <= |messages| && |EncodeProtobufs(messages[i..])| + 5 <= 0x8000_0000
    ensures !Ends(EncodeProtobufs(messages) + Minus(|EncodeProtobufs(messages[i..])| + 5) + rest)
  {
    hide DecodeRound, MovedTo, EncodeProtobufs, Minus, Ends;
    var a, b := messages[..i], messages[i..];
    var n := |EncodeProtobufs(b)| + 5;
    var tail := Minus(n) + rest;
    var data := EncodeProtobufs(messages) + Minus(n) + rest;
    assert a + b == messages;
    EncodeAppend(a, b);
    var offset := |EncodeProtobufs(messages)|;
    MovesOverBatch([], messages, tail);
    assert [] + EncodeProtobufs(messages) + tail == data;
    RoundBack(EncodeProtobufs(messages), n, rest);
    MovesOverBatch(EncodeProtobufs(a), b, tail);
    assert EncodeProtobufs(a) + EncodeProtobufs(b) + tail == data;
    OneMoveThen(data, offset, |b|);
    ComesBack(data, |messages|, offset, |b| + 1);
  }

  lemma OneMoveThen(data: Bytes, offset: int, moves: nat)
    requires offset < |data| && DecodeRound(data, offset).Move?
    ensures MovedTo(data, offset, moves + 1) == MovedTo(data, DecodeRound(data, offset).offset, moves)
  {
  }

  /** The same for a length that leads to the beginning of the buffer or in front of it. */
  lemma BackToStartNeverEnds(messages: seq<Bytes>, n: nat, rest: Bytes)
    requires forall m | m in messages :: |m| < 0x8000_0000 && |m| != NOT_PREFIXED
    requires |EncodeProtobufs(messages)| + 5 <= n <= 0x8000_0000
    ensures !Ends(EncodeProtobufs(messages) + Minus(n) + rest)
  {
    hide DecodeRound, MovedTo, EncodeProtobufs, Minus, Ends;
    var tail := Minus(n) + rest;
    var data := EncodeProtobufs(messages) + Minus(n) + rest;
    var offset := |EncodeProtobufs(messages)|;
    MovesOverBatch([], messages, tail);
    assert [] + EncodeProtobufs(messages) + tail == data;
    RoundBack(EncodeProtobufs(messages), n, rest);
    var below := offset + 5 - n;
    MovesUp(data, below);
    MovedOn(data, below, -below, |messages|);
    OneMoveThen(data, offset, -below + |messages|);
    ComesBack(data, |messages|, offset, -below + |messages| + 1);
  }

  /** The shortest such batch. */
  lemma FiveBytesNeverEnd()
    ensures !Ends([0xfb, 0xff, 0xff, 0xff, 0x0f])
  {
    hide Ends;
    hide WriteVarint;
    BackToStartNeverEnds([], 5, []);
    WriteWordStep(0xffff_fffb);
    WriteWordStep(0x1ff_ffff);
    WriteWordStep(0x3_ffff);
    WriteWordStep(0x7ff);
    WriteWordStep(0x0f);
    assert EncodeProtobufs([]) + Minus(5) + [] == [0xfb, 0xff, 0xff, 0xff, 0x0f];
  }

  /** Nor does the batch of a single message of 2^31 bytes or more, as it is sent. */
  lemma HugeMessageNeverEnds(message: Bytes)
    requires 0x8000_0000 <= |message| <= WORD - 5
    ensures !Ends(EncodeProtobufs([message]))
  {
    hide Ends;
    BackToStartNeverEnds([], WORD - |message|, message);
    assert [message][1..] == [];
    assert EncodeProtobufs([message]) == EncodeProtobufs([]) + Minus(WORD - |message|) + message;
  }

  /** A length below zero need not be the end of it: the loop may go on from inside a message, and stop there. */
  lemma BackwardsMayEnd()
    ensures
      var data := [0x02, NOT_PREFIXED, 0x00] + Minus(7);
      && !Forward(data)
      && DecodeProtobufs(data) == Some([[NOT_PREFIXED, 0x00], [], data[1..]])
  {
    hide ReadVarint, Minus, DecodeRound;
    var data := [0x02, NOT_PREFIXED, 0x00] + Minus(7);
    MinusIs(7, []);
    assert data == [0x02, NOT_PREFIXED, 0x00] + Minus(7) + [];
    RoundBack([0x02, NOT_PREFIXED, 0x00], 7, []);
    FirstRound(data);
    BackRound(data);
    LastRound(data);
    assert Decoded(data, 1, 6) == Some([data[1..]]);
    assert Decoded(data, 3, 7) == Some([[]] + [data[1..]]);
    assert [[NOT_PREFIXED, 0x00]] + ([[]] + [data[1..]]) == [[NOT_PREFIXED, 0x00], [], data[1..]];
  }

  lemma FirstRound(data: Bytes)
    requires |data| > 3 && data[..3] == [0x02, NOT_PREFIXED, 0x00]
    ensures DecodeRound(data, 0) == Move(3, [NOT_PREFIXED, 0x00])
    ensures !Forward(data[3..]) ==> !Forward(data)
  {
    hide ReadVarintFrom;
    WriteVarintStep(2);
    VarintRoundTrip(2, data[1..]);
    assert data[0..] == [0x02] + data[1..] && data[0..] == data;
    assert data[1..3] == data[..3][1..];
  }

  lemma BackRound(data: Bytes)
    requires |data| == 8 && data[3..] == Minus(7)
    ensures !Forward(data[3..])
    ensures DecodeRound(data, 3) == Move(1, [])
  {
    hide ReadVarint, Minus;
    MinusIs(7, []);
    assert Minus(7) + [] == Minus(7) && data[3] == data[3..][0];
    assert DecodeRound(data, 3) == Move(1, Subarray(data, 8, 1));
  }

  lemma LastRound(data: Bytes)
    requires |data| > 1 && data[1] == NOT_PREFIXED
    ensures DecodeRound(data, 1) == Stop([data[1..]])
  {
  }

  // ---- The loops ----

  lemma Associates<T>(a: seq<T>, b: seq<T>, c: seq<T>)
    ensures a + (b + c) == (a + b) + c
  {
  }

  method WriteVarintBytes(value: nat) returns (r: Bytes)
    ensures r == WriteVarint(value)
  {
    hide WriteVarint;
    r := [];
    var v: nat := value;
    while v > 0x7f
      invariant WriteVarint(value) == r + WriteVarint(v)
    {
      WriteVarintStep(v);
      Associates(r, [v % 128 + 128], WriteVarint(v % WORD / 128));
      r := r + [v % 128 + 128];
      v := v % WORD / 128;
    }
    WriteVarintStep(v);
    r := r + [v];
  }

  method ReadVarintAt(data: Bytes, offset: int) returns (r: Result<(int, nat), VarintError>)
    requires offset <= |data|
    ensures r == ReadVarintIn(data, offset)
  {
    var value: nat, shift: nat, bytesRead: nat := 0, 0, 0;
    ghost var whole := ReadVarintIn(data, offset);
    while offset + bytesRead < |data|
      invariant offset + bytesRead <= |data|
      invariant offset < 0 ==> value == shift == bytesRead == 0
      invariant offset >= 0 ==> whole == Later(ReadVarintFrom(data[offset + bytesRead..], value, shift), bytesRead)
    {
      var byte := if offset + bytesRead < 0 then 0 else data[offset + bytesRead];
      assert offset >= 0 ==> data[offset + bytesRead..][1..] == data[offset + bytesRead + 1..];
      value := Or(value, ShiftLeft(byte % 128, shift));
      bytesRead := bytesRead + 1;
      if byte < 128 {
        return Ok((ToInt32(value), bytesRead));
      }
      shift := shift + 7;
      if shift > 35 {
        return Err(TooLong);
      }
    }
    r := Err(Incomplete);
  }

  ghost function Later(r: Result<(int, nat), VarintError>, n: nat): Result<(int, nat), VarintError> {
    match r
    case Err(e) => Err(e)
    case Ok((v, m)) => Ok((v, n + m))
  }

  method EncodeBatch(messages: seq<Bytes>) returns (r: Bytes)
    ensures r == EncodeProtobufs(messages)
  {
    r := [];
    var i := 0;
    while i < |messages|
      invariant 0 <= i <= |messages|
      invariant EncodeProtobufs(messages) == r + EncodeProtobufs(messages[i..])
    {
      var prefix := WriteVarintBytes(|messages[i]|);
      ghost var rest := messages[i..];
      assert rest[1..] == messages[i + 1..];
      Associates(r, prefix + messages[i], EncodeProtobufs(messages[i + 1..]));
      r := r + (prefix + messages[i]);
      i := i + 1;
    }
    assert r + [] == r;
  }

  /** None if the loop never ends: it has not ended after as many rounds as there are bytes. */
  method DecodeBatch(data: Bytes) returns (r: Option<seq<Bytes>>)
    ensures r == DecodeProtobufs(data)
    ensures r.Some? <==> Ends(data)
  {
    hide Decoded, ReadVarint, ReadVarintFrom, Ends;
    EndsIsDecided(data);
    var messages: seq<Bytes>, offset: int, rounds := [], 0, 0;
    ghost var whole := DecodeProtobufs(data);
    Prepended([], whole);
    while offset < |data|
      invariant 0 <= rounds <= |data|
      invariant whole == Prepend(messages, Decoded(data, offset, |data| - rounds))
      decreases |data| - rounds
    {
      DecodedStep(data, offset, |data| - rounds, messages);
      if rounds == |data| {
        return None;
      }
      if offset >= 0 && data[offset] == NOT_PREFIXED {
        return Some(messages + [data[offset..]]);
      }
      var read := ReadVarintAt(data, offset);
      if read.Err? {
        return Some(messages);
      }
      var (length, bytesRead) := read.value;
      offset := offset + bytesRead;
      if offset + length > |data| {
        return Some(messages);
      }
      messages := messages + [Subarray(data, offset, offset + length)];
      offset := offset + length;
      rounds := rounds + 1;
    }
    DecodedStep(data, offset, |data| - rounds, messages);
    r := Some(messages);
  }

  ghost function Prepend(done: seq<Bytes>, rest: Option<seq<Bytes>>): Option<seq<Bytes>> {
    match rest
    case None => None
    case Some(more) => Some(done + more)
  }

  lemma Prepended(done: seq<Bytes>, rest: Option<seq<Bytes>>)
    ensures Prepend([], rest) == rest
    ensures Prepend(done, Some([])) == Some(done)
  {
    if rest.Some? {
      assert [] + rest.value == rest.value;
    }
    assert done + [] == done;
  }

  lemma DecodedStep(data: Bytes, offset: int, rounds: nat, done: seq<Bytes>)
    ensures
      var whole := Prepend(done, Decoded(data, offset, rounds));
      if offset >= |data| then whole == Some(done)
      else if rounds == 0 then whole == None
      else
        match DecodeRound(data, offset)
        case Stop(last) => whole == Some(done + last) && done + [] == done
        case Move(next, message) => whole == Prepend(done + [message], Decoded(data, next, rounds - 1))
  {
    hide DecodeRound;
    Prepended(done, None);
    if offset < |data| && rounds > 0 {
      match DecodeRound(data, offset) {
        case Stop(_) =>
        case Move(next, message) =>
          match Decoded(data, next, rounds - 1)
          case None =>
          case Some(more) => Associates(done, [message], more);
      }
    }
  }
}
