/** Signal frames: a four-byte big-endian length, then one archive.

The archive format is a library. A `Codec` stands for it: a pair of functions of
which the proofs use only that decoding undoes encoding (`Faithful`). */
module Frames {
  import opened Wrappers

  newtype byte = x: int | 0 <= x < 256
  type Bytes = seq<byte>

  /** The largest archive a reader accepts. */
  const FRAME_LIMIT: nat := 1024 * 1024
  /** A length that does not fit in the four-byte header. */
  const U32_LIMIT: nat := 0x1_0000_0000

  datatype FrameError = Io | Archive | TooLarge(size: nat) | Closed

  /** What a reader meets after the last byte it will ever receive. */
  datatype Ending = Eof | Fault

  datatype Codec<!V> = Codec(encode: V -> Option<Bytes>, decode: Bytes -> Option<V>)

  ghost predicate Faithful<V(!new)>(codec: Codec<V>) {
    forall v :: codec.encode(v).Some? ==> codec.decode(codec.encode(v).value) == Some(v)
  }

  // ----- The header -----

  function Header(n: nat): (h: Bytes)
    requires n < U32_LIMIT
    ensures |h| == 4
  {
    [(n / 0x100_0000) as byte, (n / 0x1_0000 % 0x100) as byte, (n / 0x100 % 0x100) as byte, (n % 0x100) as byte]
  }

  function HeaderValue(h: Bytes): (n: nat)
    requires |h| == 4
    ensures n < U32_LIMIT
  {
    h[0] as int * 0x100_0000 + h[1] as int * 0x1_0000 + h[2] as int * 0x100 + h[3] as int
  }

  lemma HeaderThenValue(n: nat)
    requires n < U32_LIMIT
    ensures HeaderValue(Header(n)) == n
  {
    assert n / 0x1_0000 / 0x100 == n / 0x100_0000;
    assert n / 0x100 / 0x100 == n / 0x1_0000;
  }

  lemma ValueThenHeader(h: Bytes)
    requires |h| == 4
    ensures Header(HeaderValue(h)) == h
  {
    var n := HeaderValue(h);
    assert n / 0x100_0000 == h[0] as int;
    assert n / 0x1_0000 == h[0] as int * 0x100 + h[1] as int;
    assert n / 0x100 == h[0] as int * 0x1_0000 + h[1] as int * 0x100 + h[2] as int;
  }

  /** The header is big-endian: a longer length has a header that is greater in its first
  different byte. */
  lemma HeaderIsBigEndian(m: nat, n: nat)
    requires m < n < U32_LIMIT
    ensures exists k | 0 <= k < 4 :: Header(m)[..k] == Header(n)[..k] && Header(m)[k] < Header(n)[k]
  {
    var a, b := Header(m), Header(n);
    HeaderThenValue(m);
    HeaderThenValue(n);
    var k := if a[0] != b[0] then 0 else if a[1] != b[1] then 1 else if a[2] != b[2] then 2 else 3;
    assert a[..k] == b[..k];
  }

  // ----- Writing -----

  function Frame(archive: Bytes): (frame: Bytes)
    requires |archive| < U32_LIMIT
    ensures |frame| == 4 + |archive|
  {
    Header(|archive|) + archive
  }

  /** The frame of a value, when it has an archive whose length fits the header. */
  function Encoded<V>(codec: Codec<V>, v: V): Option<Bytes> {
    match codec.encode(v)
    case None => None
    case Some(archive) => if |archive| < U32_LIMIT then Some(Frame(archive)) else None
  }

  /** A reader can take the value: it has an archive within the limit. */
  predicate Fits<V>(codec: Codec<V>, v: V) {
    codec.encode(v).Some? && |codec.encode(v).value| <= FRAME_LIMIT
  }

  predicate FitsAll<V>(codec: Codec<V>, vs: seq<V>) {
    forall i | 0 <= i < |vs| :: Fits(codec, vs[i])
  }

  /** Bytes the peer's kernel takes before writing fails; None if it never fails. */
  type Credit = Option<nat>

  predicate Affords(credit: Credit, n: nat) {
    credit.None? || n <= credit.value
  }

  function Spend(credit: Credit, n: nat): Credit {
    match credit
    case None => None
    case Some(c) => if n <= c then Some(c - n) else Some(0)
  }

  /** The prefix of `data` that gets through. */
  function Accepted(data: Bytes, credit: Credit): (taken: Bytes)
    ensures taken <= data
    ensures taken == data <==> Affords(credit, |data|)
  {
    if Affords(credit, |data|) then data else data[..credit.value]
  }

  lemma AcceptedConcat(a: Bytes, b: Bytes, credit: Credit)
    ensures Accepted(a + b, credit) ==
            if Affords(credit, |a|) then a + Accepted(b, Spend(credit, |a|)) else Accepted(a, credit)
    ensures Affords(credit, |a + b|) <==> Affords(credit, |a|) && Affords(Spend(credit, |a|), |b|)
    ensures Affords(credit, |a|) ==> Spend(credit, |a + b|) == Spend(Spend(credit, |a|), |b|)
    ensures !Affords(credit, |a|) ==> Spend(credit, |a + b|) == Some(0)
  {
    if Affords(credit, |a|) && !Affords(credit, |a + b|) {
      assert (a + b)[..credit.value] == a + b[..credit.value - |a|];
    } else if !Affords(credit, |a|) {
      assert (a + b)[..credit.value] == a[..credit.value];
    }
  }

  /** What writing the values in order puts on the wire: a value that cannot be
  framed stops the writer. */
  function WireBytes<V>(codec: Codec<V>, vs: seq<V>): Bytes {
    if vs == [] || Encoded(codec, vs[0]).None? then []
    else Encoded(codec, vs[0]).value + WireBytes(codec, vs[1..])
  }

  /** Every value is framed and taken whole. */
  predicate AllWritten<V>(codec: Codec<V>, vs: seq<V>, credit: Credit) {
    vs == [] ||
    (var frame := Encoded(codec, vs[0]);
     && frame.Some? && Affords(credit, |frame.value|)
     && AllWritten(codec, vs[1..], Spend(credit, |frame.value|)))
  }

  /** Writing the first value, then the rest. */
  lemma WriteStep<V>(codec: Codec<V>, vs: seq<V>, credit: Credit)
    requires vs != []
    ensures Accepted(WireBytes(codec, vs), credit) ==
            match Encoded(codec, vs[0])
            case None => []
            case Some(frame) =>
              if Affords(credit, |frame|)
              then frame + Accepted(WireBytes(codec, vs[1..]), Spend(credit, |frame|))
              else Accepted(frame, credit)
    ensures AllWritten(codec, vs, credit) <==>
            var frame := Encoded(codec, vs[0]);
            && frame.Some? && Affords(credit, |frame.value|)
            && AllWritten(codec, vs[1..], Spend(credit, |frame.value|))
    ensures |vs| == 1 ==> WireBytes(codec, vs[1..]) == []
  {
    match Encoded(codec, vs[0]) {
      case None =>
      case Some(frame) => AcceptedConcat(frame, WireBytes(codec, vs[1..]), credit);
    }
  }

  /** All of the values get through exactly when each can be framed and the peer takes
  as many bytes as they come to. */
  lemma {:induction false} AllWrittenExactly<V>(codec: Codec<V>, vs: seq<V>, credit: Credit)
    ensures AllWritten(codec, vs, credit) <==>
            && (forall i | 0 <= i < |vs| :: Encoded(codec, vs[i]).Some?)
            && Affords(credit, |WireBytes(codec, vs)|)
  {
    if vs == [] || Encoded(codec, vs[0]).None? {
    } else {
      var frame, more := Encoded(codec, vs[0]).value, vs[1..];
      AcceptedConcat(frame, WireBytes(codec, more), credit);
      AllWrittenExactly(codec, more, Spend(credit, |frame|));
      assert forall i | 0 < i < |vs| :: vs[i] == more[i - 1];
      assert forall i | 0 <= i < |more| :: more[i] == vs[i + 1];
    }
  }

  // ----- Reading -----

  datatype Reading<+V> = Reading(result: Result<V, FrameError>, rest: Bytes)

  /** One frame read off the front of `input`, and the bytes left unread. */
  function Decode<V>(codec: Codec<V>, input: Bytes, ending: Ending): Reading<V> {
    if |input| < 4 then
      Reading(Failure(if ending.Eof? then Closed else Io), [])
    else
      var n := HeaderValue(input[..4]);
      var body := input[4..];
      if n > FRAME_LIMIT then Reading(Failure(TooLarge(n)), body)
      else if |body| < n then Reading(Failure(Io), [])
      else match codec.decode(body[..n])
           case None => Reading(Failure(Archive), body[n..])
           case Some(v) => Reading(Success(v), body[n..])
  }

  /** Every frame a reader takes before its first failed read. */
  function DecodeAll<V>(codec: Codec<V>, input: Bytes, ending: Ending): seq<V>
    decreases |input|
  {
    var one := Decode(codec, input, ending);
    if one.result.Failure? then []
    else [one.result.value] + DecodeAll(codec, one.rest, ending)
  }

  /** Exactly `n` frames, or None when a read fails first. */
  function DecodeMany<V>(codec: Codec<V>, n: nat, input: Bytes, ending: Ending): Option<(seq<V>, Bytes)> {
    if n == 0 then Some(([], input))
    else
      var one := Decode(codec, input, ending);
      if one.result.Failure? then None
      else match DecodeMany(codec, n - 1, one.rest, ending)
           case None => None
           case Some((vs, rest)) => Some(([one.result.value] + vs, rest))
  }

  // ----- What framing promises -----

  lemma DecodeFrame<V(!new)>(codec: Codec<V>, archive: Bytes, tail: Bytes, ending: Ending)
    requires |archive| < U32_LIMIT
    ensures var r := Decode(codec, Frame(archive) + tail, ending);
            if |archive| > FRAME_LIMIT then r == Reading(Failure(TooLarge(|archive|)), archive + tail)
            else r == Reading(match codec.decode(archive) case None => Failure(Archive) case Some(v) => Success(v), tail)
  {
    var input := Frame(archive) + tail;
    HeaderThenValue(|archive|);
    assert input[..4] == Header(|archive|);
    assert input[4..] == archive + tail;
    if |archive| <= FRAME_LIMIT {
      assert (archive + tail)[..|archive|] == archive;
      assert (archive + tail)[|archive|..] == tail;
    }
  }

  lemma DecodeAllCons<V(!new)>(codec: Codec<V>, archive: Bytes, tail: Bytes, ending: Ending)
    requires |archive| <= FRAME_LIMIT && codec.decode(archive).Some?
    ensures DecodeAll(codec, Frame(archive) + tail, ending)
            == [codec.decode(archive).value] + DecodeAll(codec, tail, ending)
  {
    DecodeFrame(codec, archive, tail, ending);
  }

  lemma WireBytesCons<V>(codec: Codec<V>, vs: seq<V>, archive: Bytes, tail: Bytes)
    requires vs != [] && codec.encode(vs[0]) == Some(archive) && |archive| < U32_LIMIT
    ensures WireBytes(codec, vs) + tail == Frame(archive) + (WireBytes(codec, vs[1..]) + tail)
  {
    var frame, rest := Frame(archive), WireBytes(codec, vs[1..]);
    assert (frame + rest) + tail == frame + (rest + tail);
  }

  lemma DecodeManyCons<V(!new)>(codec: Codec<V>, n: nat, archive: Bytes, input: Bytes, ending: Ending)
    requires |archive| < U32_LIMIT
    ensures DecodeMany(codec, n + 1, Frame(archive) + input, ending) ==
            if |archive| > FRAME_LIMIT || codec.decode(archive).None? then None
            else match DecodeMany(codec, n, input, ending)
                 case None => None
                 case Some((vs, rest)) => Some(([codec.decode(archive).value] + vs, rest))
  {
    DecodeFrame(codec, archive, input, ending);
  }

  lemma FitsAllCons<V>(codec: Codec<V>, vs: seq<V>)
    requires vs != []
    ensures FitsAll(codec, vs) <==> Fits(codec, vs[0]) && FitsAll(codec, vs[1..])
  {
    if Fits(codec, vs[0]) && FitsAll(codec, vs[1..]) {
      forall i | 0 <= i < |vs| ensures Fits(codec, vs[i]) {
        assert i > 0 ==> vs[i] == vs[1..][i - 1];
      }
    }
  }

  /** Reading back what was written gives the values and leaves what follows
  untouched, exactly when every archive is within the limit. */
  lemma {:induction false} FramingRoundTrip<V(!new)>(codec: Codec<V>, vs: seq<V>, tail: Bytes, ending: Ending)
    requires Faithful(codec)
    requires forall i | 0 <= i < |vs| :: Encoded(codec, vs[i]).Some?
    ensures DecodeMany(codec, |vs|, WireBytes(codec, vs) + tail, ending) == Some((vs, tail))
            <==> FitsAll(codec, vs)
  {
    if vs == [] {
      NothingWritten(codec, tail, ending);
    } else {
      EncodedFirstAndRest(codec, vs);
      FramingRoundTrip(codec, vs[1..], tail, ending);
      ReadFirstWritten(codec, vs, tail, ending);
      FitsAllCons(codec, vs);
    }
  }

  lemma NothingWritten<V(!new)>(codec: Codec<V>, tail: Bytes, ending: Ending)
    ensures DecodeMany(codec, 0, WireBytes(codec, []) + tail, ending) == Some(([], tail))
  {
    assert WireBytes(codec, []) + tail == tail;
  }

  lemma EncodedFirstAndRest<V>(codec: Codec<V>, vs: seq<V>)
    requires vs != [] && forall i | 0 <= i < |vs| :: Encoded(codec, vs[i]).Some?
    ensures Encoded(codec, vs[0]).Some?
    ensures forall i | 0 <= i < |vs[1..]| :: Encoded(codec, vs[1..][i]).Some?
  {
    forall i | 0 <= i < |vs[1..]| ensures Encoded(codec, vs[1..][i]).Some? {
      assert vs[1..][i] == vs[i + 1];
    }
  }

  lemma ReadFirstWritten<V(!new)>(codec: Codec<V>, vs: seq<V>, tail: Bytes, ending: Ending)
    requires Faithful(codec) && vs != [] && Encoded(codec, vs[0]).Some?
    ensures DecodeMany(codec, |vs|, WireBytes(codec, vs) + tail, ending) == Some((vs, tail)) <==>
            && Fits(codec, vs[0])
            && DecodeMany(codec, |vs[1..]|, WireBytes(codec, vs[1..]) + tail, ending) == Some((vs[1..], tail))
  {
    var archive, more := codec.encode(vs[0]).value, vs[1..];
    var input := WireBytes(codec, more) + tail;
    WireBytesCons(codec, vs, archive, tail);
    DecodeManyCons(codec, |more|, archive, input, ending);
    assert vs == [vs[0]] + more;
    FirstThenMany(vs[0], more, DecodeMany(codec, |more|, input, ending), tail);
  }

  lemma FirstThenMany<V>(v: V, more: seq<V>, read: Option<(seq<V>, Bytes)>, tail: Bytes)
    ensures (match read case None => None case Some((vs, rest)) => Some(([v] + vs, rest))) == Some(([v] + more, tail))
            <==> read == Some((more, tail))
  {
    if read.Some? {
      assert ([v] + read.value.0)[1..] == read.value.0;
      assert ([v] + more)[1..] == more;
    }
  }

  /** The same for a reader that takes all it can: it gets every written value, then
  whatever the bytes behind them decode to. */
  lemma {:induction false} DecodeAllWritten<V(!new)>(codec: Codec<V>, vs: seq<V>, tail: Bytes, ending: Ending)
    requires Faithful(codec) && FitsAll(codec, vs)
    ensures DecodeAll(codec, WireBytes(codec, vs) + tail, ending) == vs + DecodeAll(codec, tail, ending)
  {
    if vs == [] {
      assert WireBytes(codec, vs) + tail == tail;
    } else {
      FitsAllCons(codec, vs);
      DecodeAllWritten(codec, vs[1..], tail, ending);
      DecodeFirstWritten(codec, vs, tail, ending);
      Regroup(vs, DecodeAll(codec, tail, ending));
    }
  }

  lemma DecodeFirstWritten<V(!new)>(codec: Codec<V>, vs: seq<V>, tail: Bytes, ending: Ending)
    requires Faithful(codec) && vs != [] && Fits(codec, vs[0])
    ensures DecodeAll(codec, WireBytes(codec, vs) + tail, ending)
            == [vs[0]] + DecodeAll(codec, WireBytes(codec, vs[1..]) + tail, ending)
  {
    var archive := codec.encode(vs[0]).value;
    WireBytesCons(codec, vs, archive, tail);
    DecodeAllCons(codec, archive, WireBytes(codec, vs[1..]) + tail, ending);
  }

  lemma Regroup<V>(vs: seq<V>, others: seq<V>)
    requires vs != []
    ensures [vs[0]] + (vs[1..] + others) == vs + others
  {
  }

  /** No strict prefix of a frame decodes, whatever the codec. Cut inside the header
  at end of file it reads as an orderly close, cut inside the archive as an
  I/O error. */
  lemma StrictPrefixNeverDecodes<V>(codec: Codec<V>, archive: Bytes, k: nat, ending: Ending)
    requires |archive| < U32_LIMIT && k < |Frame(archive)|
    ensures var r := Decode(codec, Frame(archive)[..k], ending).result;
            && r.Failure?
            && (r.error == Closed <==> k < 4 && ending.Eof?)
            && (r.error == TooLarge(|archive|) <==> 4 <= k && |archive| > FRAME_LIMIT)
  {
    if 4 <= k {
      HeaderThenValue(|archive|);
      assert Frame(archive)[..k][..4] == Header(|archive|);
    }
  }

  /** A successful read took one whole frame, and nothing else decodes: the input is
  that frame followed by what is left. */
  lemma DecodedIsFrame<V>(codec: Codec<V>, input: Bytes, ending: Ending)
    ensures var r := Decode(codec, input, ending);
            r.result.Success? <==>
            exists archive: Bytes ::
              && |archive| <= FRAME_LIMIT && codec.decode(archive).Some?
              && input == Frame(archive) + r.rest && r.result == Success(codec.decode(archive).value)
  {
    var r := Decode(codec, input, ending);
    if r.result.Success? {
      var archive := input[4..][..HeaderValue(input[..4])];
      ValueThenHeader(input[..4]);
      assert input == Frame(archive) + r.rest;
    }
  }

  /** `Closed` is documented as a close between frames; it is reported exactly when
  end of file arrives with fewer than four bytes pending, half a header included. */
  lemma ClosedMeansFewerThanFourBytes<V>(codec: Codec<V>, input: Bytes, ending: Ending)
    ensures Decode(codec, input, ending).result == Failure(Closed) <==> |input| < 4 && ending.Eof?
  {
  }

  /** A header above the limit, and nothing else, is refused as too large; exactly the
  four header bytes are gone. */
  lemma OversizedHeaderStopsAtFourBytes<V>(codec: Codec<V>, input: Bytes, ending: Ending)
    ensures var r := Decode(codec, input, ending);
            var oversized := |input| >= 4 && HeaderValue(input[..4]) > FRAME_LIMIT;
            && (r.result.Failure? && r.result.error.TooLarge? <==> oversized)
            && (oversized ==> r.rest == input[4..])
  {
  }

  // ----- The stream itself -----

  /** One connected socket: the bytes still to be read, how they end, the bytes the
  peer has taken, and how many more it will take. */
  class ByteStream {
    var incoming: Bytes
    const ending: Ending
    var outgoing: Bytes
    var credit: Credit

    constructor (incoming: Bytes, ending: Ending, credit: Credit)
      ensures this.incoming == incoming && this.ending == ending
      ensures outgoing == [] && this.credit == credit
    {
      this.incoming, this.ending, this.outgoing, this.credit := incoming, ending, [], credit;
    }

    method WriteAll(data: Bytes) returns (ok: bool)
      modifies this`outgoing, this`credit
      ensures outgoing == old(outgoing) + Accepted(data, old(credit))
      ensures credit == Spend(old(credit), |data|)
      ensures ok <==> Affords(old(credit), |data|)
    {
      ok := Affords(credit, |data|);
      outgoing := outgoing + Accepted(data, credit);
      credit := Spend(credit, |data|);
    }

    /** Fills the whole buffer, or fails with the remaining bytes lost. */
    method ReadExact(buffer: array<byte>) returns (ok: bool)
      modifies this`incoming, buffer
      ensures ok <==> buffer.Length <= |old(incoming)|
      ensures ok ==> buffer[..] == old(incoming)[..buffer.Length] && incoming == old(incoming)[buffer.Length..]
      ensures !ok ==> incoming == []
    {
      ok := buffer.Length <= |incoming|;
      if ok {
        forall i | 0 <= i < buffer.Length {
          buffer[i] := incoming[i];
        }
        incoming := incoming[buffer.Length..];
      } else {
        incoming := [];
      }
    }

    /** The peer gets a prefix of the frame, the whole of it exactly on success; a
    value that cannot be framed sends nothing. */
    method WriteFrame<V>(codec: Codec<V>, v: V) returns (r: Result<(), FrameError>)
      modifies this`outgoing, this`credit
      ensures Encoded(codec, v).None? ==>
                && outgoing == old(outgoing) && credit == old(credit)
                && r == match codec.encode(v) case None => Failure(Archive) case Some(archive) => Failure(TooLarge(|archive|))
      ensures Encoded(codec, v).Some? ==>
                var frame := Encoded(codec, v).value;
                && outgoing == old(outgoing) + Accepted(frame, old(credit))
                && credit == Spend(old(credit), |frame|)
                && r == if Affords(old(credit), |frame|) then Success(()) else Failure(Io)
    {
      var encoded := codec.encode(v);
      if encoded.None? {
        return Failure(Archive);
      }
      var archive := encoded.value;
      if |archive| >= U32_LIMIT {
        return Failure(TooLarge(|archive|));
      }
      AcceptedConcat(Header(|archive|), archive, credit);
      ghost var before := outgoing;
      ghost var was := credit;
      var ok := WriteAll(Header(|archive|));
      if !ok {
        return Failure(Io);
      }
      ok := WriteAll(archive);
      assert outgoing == before + Accepted(Frame(archive), was);
      r := if ok then Success(()) else Failure(Io);
    }

    method ReadFrame<V>(codec: Codec<V>) returns (r: Result<V, FrameError>)
      modifies this`incoming
      ensures Reading(r, incoming) == Decode(codec, old(incoming), ending)
    {
      ghost var input := incoming;
      var header := new byte[4];
      var ok := ReadExact(header);
      if !ok {
        return Failure(if ending.Eof? then Closed else Io);
      }
      var n := HeaderValue(header[..]);
      if n > FRAME_LIMIT {
        return Failure(TooLarge(n));
      }
      var body := new byte[n];
      ok := ReadExact(body);
      if !ok {
        return Failure(Io);
      }
      assert body[..] == input[4..][..n];
      match codec.decode(body[..]) {
        case None => r := Failure(Archive);
        case Some(v) => r := Success(v);
      }
    }
  }
}
