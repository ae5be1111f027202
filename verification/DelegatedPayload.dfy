/**
 The delegated-close instruction data: the Borsh writer that builds it and the
 parsers that take the two embedded instructions out of it again.
 */
module DelegatedPayload {
  import opened Wrappers
  import opened Bytes

  // ----- reading -----

  datatype Malformed = Malformed

  datatype Embedded = Embedded(before: seq<byte>, after: seq<byte>, beforeAccounts: u16)

  datatype Vector = Vector(bytes: seq<byte>, next: nat)

  /** `readVector`: a u32 length and that many bytes. */
  function ReadVector(data: seq<byte>, cursor: nat): (r: Result<Vector, Malformed>)
    ensures r.Ok? ==> cursor + 4 <= r.value.next <= |data|
  {
    if cursor + 4 > |data| then Err(Malformed)
    else
      var start, length := cursor + 4, FromLe(data[cursor..cursor + 4]);
      if start + length > |data| then Err(Malformed)
      else Ok(Vector(data[start..start + length], start + length))
  }

  /** discriminator, debt asset, minimum out, close fraction */
  const HEADER: nat := 8 + 1 + 8 + 2

  /** `decodeDelegatedCpiPayload`. */
  function Decode(data: seq<byte>): Result<Embedded, Malformed> {
    if |data| < 29 then Err(Malformed)
    else match ReadVector(data, HEADER)
      case Err(e) => Err(e)
      case Ok(before) => match ReadVector(data, before.next)
        case Err(e) => Err(e)
        case Ok(after) =>
          if after.next + 2 != |data| then Err(Malformed)
          else
            Widths();
            FromLeBound(data[after.next..]);
            Ok(Embedded(before.bytes, after.bytes, FromLe(data[after.next..])))
  }

  /** `read_vector`, which moves the cursor it is given. */
  method TakeVector(data: seq<byte>, at: nat) returns (bytes: Result<seq<byte>, Malformed>, cursor: nat)
    ensures match ReadVector(data, at)
      case Err(e) => bytes == Err(e)
      case Ok(v) => bytes == Ok(v.bytes) && cursor == v.next
  {
    cursor := at;
    var lengthEnd := cursor + 4;
    if lengthEnd > |data| {
      return Err(Malformed), cursor;
    }
    var length := FromLe(data[cursor..lengthEnd]);
    cursor := lengthEnd;
    var end := cursor + length;
    if end > |data| {
      return Err(Malformed), cursor;
    }
    bytes := Ok(data[cursor..end]);
    cursor := end;
  }

  /** `decode_delegated_cpi_payload`, with one cursor for the whole walk. */
  method DecodeDelegatedCpiPayload(data: seq<byte>) returns (r: Result<Embedded, Malformed>)
    ensures r == Decode(data)
  {
    if |data| < 8 + 1 + 8 + 2 + 4 + 4 + 2 {
      return Err(Malformed);
    }
    var before, after;
    var cursor := 8 + 1 + 8 + 2;
    before, cursor := TakeVector(data, cursor);
    if before.Err? {
      return Err(Malformed);
    }
    after, cursor := TakeVector(data, cursor);
    if after.Err? {
      return Err(Malformed);
    }
    var end := cursor + 2;
    if end != |data| {
      return Err(Malformed);
    }
    Widths();
    FromLeBound([data[cursor], data[cursor + 1]]);
    assert [data[cursor], data[cursor + 1]] == data[cursor..];
    var count := FromLe([data[cursor], data[cursor + 1]]);
    r := Ok(Embedded(before.value, after.value, count));
  }

  // ----- what is read is what was written, and nothing else is accepted -----

  function VectorBytes(bytes: seq<byte>): seq<byte> { ToLe(|bytes|, 4) + bytes }

  function Payload(e: Embedded): seq<byte> {
    VectorBytes(e.before) + VectorBytes(e.after) + ToLe(e.beforeAccounts, 2)
  }

  predicate Fits(bytes: seq<byte>) { |bytes| < 0x1_0000_0000 }

  lemma VectorRead(head: seq<byte>, bytes: seq<byte>, rest: seq<byte>)
    requires Fits(bytes)
    ensures ReadVector(head + VectorBytes(bytes) + rest, |head|) == Ok(Vector(bytes, |head| + 4 + |bytes|))
  {
    var data, start := head + VectorBytes(bytes) + rest, |head| + 4;
    LeFits(|bytes|, 4);
    assert data[|head|..start] == ToLe(|bytes|, 4);
    assert data[start..start + |bytes|] == bytes;
  }

  lemma VectorWritten(data: seq<byte>, cursor: nat)
    requires ReadVector(data, cursor).Ok?
    ensures var v := ReadVector(data, cursor).value;
            Fits(v.bytes) && data[cursor..v.next] == VectorBytes(v.bytes)
  {
    var v := ReadVector(data, cursor).value;
    Widths();
    FromLeBound(data[cursor..cursor + 4]);
    LeUnique(data[cursor..cursor + 4]);
    assert data[cursor..v.next] == data[cursor..cursor + 4] + v.bytes;
  }

  /** Whatever header precedes a payload, decoding gives the payload back. */
  lemma DecodeOfPayload(header: seq<byte>, e: Embedded)
    requires |header| == HEADER && Fits(e.before) && Fits(e.after)
    ensures Decode(header + Payload(e)) == Ok(e)
  {
    var data := header + Payload(e);
    var head := header + VectorBytes(e.before);
    VectorRead(header, e.before, VectorBytes(e.after) + ToLe(e.beforeAccounts, 2));
    assert data == header + VectorBytes(e.before) + (VectorBytes(e.after) + ToLe(e.beforeAccounts, 2));
    VectorRead(head, e.after, ToLe(e.beforeAccounts, 2));
    assert data == head + VectorBytes(e.after) + ToLe(e.beforeAccounts, 2);
    LeFits(e.beforeAccounts, 2);
    assert data[|head + VectorBytes(e.after)|..] == ToLe(e.beforeAccounts, 2);
  }

  /** Accepted data is a header and the payload of what it decodes to: no byte is ignored. */
  lemma PayloadOfDecode(data: seq<byte>)
    requires Decode(data).Ok?
    ensures var e := Decode(data).value;
            Fits(e.before) && Fits(e.after) && data == data[..HEADER] + Payload(e)
  {
    var first := ReadVector(data, HEADER).value;
    var second := ReadVector(data, first.next).value;
    VectorWritten(data, HEADER);
    VectorWritten(data, first.next);
    LeUnique(data[second.next..]);
    assert data == data[..HEADER] + data[HEADER..first.next] + data[first.next..second.next] + data[second.next..];
  }

  /** The data the parser accepts are exactly the headers followed by a payload. */
  lemma AcceptedExactly(data: seq<byte>)
    ensures Decode(data).Ok? <==>
            |data| >= HEADER && exists e: Embedded :: Fits(e.before) && Fits(e.after) && data[HEADER..] == Payload(e)
  {
    if Decode(data).Ok? {
      PayloadOfDecode(data);
      assert data[HEADER..] == Payload(Decode(data).value);
    }
    if |data| >= HEADER {
      forall e: Embedded | Fits(e.before) && Fits(e.after) && data[HEADER..] == Payload(e)
        ensures Decode(data).Ok?
      {
        DecodeOfPayload(data[..HEADER], e);
        assert data == data[..HEADER] + data[HEADER..];
      }
    }
  }

  // ----- writing -----

  /** The arguments before any range is checked: JavaScript numbers and bigints. */
  datatype CloseArguments = CloseArguments(
    debtAsset: int,
    minAmountOut: int,
    closeBps: int,
    before: seq<byte>,
    after: seq<byte>,
    beforeAccounts: int)
  {
    predicate InRange() {
      0 <= debtAsset < 0x100 && 0 <= minAmountOut < 0x1_0000_0000_0000_0000 && 0 <= closeBps < 0x1_0000
      && Fits(before) && Fits(after) && 0 <= beforeAccounts < 0x1_0000
    }

    function Embeds(): Embedded
      requires InRange()
    {
      Embedded(before, after, beforeAccounts)
    }

    function Header(discriminator: seq<byte>): seq<byte>
      requires InRange()
    {
      discriminator + ToLe(debtAsset, 1) + ToLe(minAmountOut, 8) + ToLe(closeBps, 2)
    }
  }

  datatype EncodeError = InvalidArguments

  class BorshWriter {
    var chunks: seq<seq<byte>>

    ghost function Contents(): seq<byte>
      reads this
    {
      Concat(chunks)
    }

    constructor ()
      ensures Contents() == []
    {
      chunks := [];
    }

    method Unsigned(value: int, maximum: int, width: nat) returns (ok: bool)
      modifies this
      ensures ok <==> 0 <= value <= maximum
      ensures Contents() == if ok then old(Contents()) + ToLe(value, width) else old(Contents())
    {
      if value < 0 || value > maximum {
        return false;
      }
      chunks := chunks + [ToLe(value, width)];
      ok := true;
    }

    method Bytes(value: seq<byte>) returns (ok: bool)
      modifies this
      ensures ok <==> Fits(value)
      ensures Contents() == if ok then old(Contents()) + VectorBytes(value) else old(Contents())
    {
      if |value| > 0xffff_ffff {
        return false;
      }
      ok := Unsigned(|value|, 0xffff_ffff, 4);
      chunks := chunks + [value];
      assert chunks[..|chunks| - 1] + [value] == chunks;
    }

    method Finish() returns (bytes: seq<byte>)
      ensures bytes == Contents()
    {
      bytes := Concat(chunks);
    }
  }

  method WriteScalars(writer: BorshWriter, a: CloseArguments) returns (ok: bool)
    modifies writer
    ensures ok <==>
            && 0 <= a.debtAsset < 0x100 && 0 <= a.minAmountOut < 0x1_0000_0000_0000_0000
            && 0 <= a.closeBps < 0x1_0000
    ensures ok ==> writer.Contents() ==
                   old(writer.Contents()) + ToLe(a.debtAsset, 1) + ToLe(a.minAmountOut, 8) + ToLe(a.closeBps, 2)
  {
    ok := writer.Unsigned(a.debtAsset, 0xff, 1);
    if !ok { return; }
    ok := writer.Unsigned(a.minAmountOut, 0xffff_ffff_ffff_ffff, 8);
    if !ok { return; }
    ok := writer.Unsigned(a.closeBps, 0xffff, 2);
  }

  method WriteEmbedded(writer: BorshWriter, a: CloseArguments) returns (ok: bool)
    modifies writer
    ensures ok <==> Fits(a.before) && Fits(a.after) && 0 <= a.beforeAccounts < 0x1_0000
    ensures ok ==> writer.Contents() ==
                   old(writer.Contents()) + Payload(Embedded(a.before, a.after, a.beforeAccounts))
  {
    ghost var start := writer.Contents();
    ok := writer.Bytes(a.before);
    if !ok { return; }
    ok := writer.Bytes(a.after);
    if !ok { return; }
    ok := writer.Unsigned(a.beforeAccounts, 0xffff, 2);
    if ok {
      PayloadAppended(start, Embedded(a.before, a.after, a.beforeAccounts));
    }
  }

  lemma PayloadAppended(start: seq<byte>, e: Embedded)
    ensures start + VectorBytes(e.before) + VectorBytes(e.after) + ToLe(e.beforeAccounts, 2) == start + Payload(e)
  {
    Appended(start, VectorBytes(e.before), VectorBytes(e.after), ToLe(e.beforeAccounts, 2));
  }

  lemma Appended(start: seq<byte>, x: seq<byte>, y: seq<byte>, z: seq<byte>)
    ensures start + x + y + z == start + (x + y + z)
  {
  }

  /** The `dusk:delegated_close_leverage` arm of `encodeKeeperInstruction`. */
  method EncodeDelegatedClose(discriminator: seq<byte>, a: CloseArguments)
    returns (r: Result<seq<byte>, EncodeError>)
    requires |discriminator| == 8
    ensures r.Ok? <==> a.InRange()
    ensures r.Ok? ==> r.value == a.Header(discriminator) + Payload(a.Embeds())
  {
    var writer := new BorshWriter();
    var ok := WriteScalars(writer, a);
    if !ok { return Err(InvalidArguments); }
    ok := WriteEmbedded(writer, a);
    if !ok { return Err(InvalidArguments); }
    var bytes := writer.Finish();
    r := Ok(discriminator + bytes);
    HeaderAppended(discriminator, ToLe(a.debtAsset, 1), ToLe(a.minAmountOut, 8), ToLe(a.closeBps, 2),
                   Payload(a.Embeds()));
  }

  lemma HeaderAppended(start: seq<byte>, x: seq<byte>, y: seq<byte>, z: seq<byte>, payload: seq<byte>)
    ensures start + ([] + x + y + z + payload) == start + x + y + z + payload
  {
  }

  /** Which bytes of the header are which argument. */
  lemma HeaderSays(discriminator: seq<byte>, a: CloseArguments)
    requires |discriminator| == 8 && a.InRange()
    ensures var h := a.Header(discriminator);
            && |h| == 19 && h[..8] == discriminator && h[8] == a.debtAsset
            && FromLe(h[9..17]) == a.minAmountOut && FromLe(h[17..19]) == a.closeBps
  {
    var h := a.Header(discriminator);
    LeFits(a.minAmountOut, 8);
    LeFits(a.closeBps, 2);
    assert h[9..17] == ToLe(a.minAmountOut, 8);
    assert h[17..19] == ToLe(a.closeBps, 2);
    assert ToLe(a.debtAsset, 1)[0] == a.debtAsset % 256;
  }

  /** And which bytes after it: each vector after its length, and the count of accounts last. */
  lemma PayloadSays(e: Embedded)
    requires Fits(e.before) && Fits(e.after)
    ensures var p, n := Payload(e), 4 + |e.before|; var m := n + 4 + |e.after|;
            && |p| == m + 2
            && FromLe(p[..4]) == |e.before| && p[4..n] == e.before
            && FromLe(p[n..n + 4]) == |e.after| && p[n + 4..m] == e.after
            && FromLe(p[m..m + 2]) == e.beforeAccounts
  {
    var p, n := Payload(e), 4 + |e.before|;
    var m := n + 4 + |e.after|;
    LeFits(|e.before|, 4);
    LeFits(|e.after|, 4);
    LeFits(e.beforeAccounts, 2);
    assert p[..4] == ToLe(|e.before|, 4);
    assert p[n..n + 4] == ToLe(|e.after|, 4);
    assert p[m..m + 2] == ToLe(e.beforeAccounts, 2);
  }

  /** What the encoder wrote, the parsers read back. */
  lemma EncodedThenDecoded(discriminator: seq<byte>, a: CloseArguments)
    requires |discriminator| == 8 && a.InRange()
    ensures Decode(a.Header(discriminator) + Payload(a.Embeds())) == Ok(Embedded(a.before, a.after, a.beforeAccounts))
  {
    DecodeOfPayload(a.Header(discriminator), a.Embeds());
  }
}
