/** The bytes of a fee config, what a list of extensions says, and why an account is refused. */
module MintLayout {
  import opened Wrappers
  import opened Bytes
  import opened TransferFees
  import opened MintFees

  // ----- the layout of a fee config -----

  /** A fee as the token program lays it out: epoch, maximum and rate. */
  function FeeBytes(fee: TransferFee): (bytes: seq<byte>)
    ensures |bytes| == 18
  {
    Widths();
    ToLe(fee.epoch, 8) + ToLe(fee.maximum, 8) + ToLe(fee.bps, 2)
  }

  lemma FeeIsRead(fee: TransferFee)
    ensures FeeAt(FeeBytes(fee)) == fee
  {
    Widths();
    LeRoundTrip(fee.epoch, 8);
    LeRoundTrip(fee.maximum, 8);
    LeRoundTrip(fee.bps, 2);
    var bytes := FeeBytes(fee);
    assert bytes[0..8] == ToLe(fee.epoch, 8);
    assert bytes[8..16] == ToLe(fee.maximum, 8);
    assert bytes[16..18] == ToLe(fee.bps, 2);
  }

  /** A fee config: two keys and the withheld amount, then the older and the newer fee. */
  function ConfigBytes(head: seq<byte>, s: MintFeeSchedule): (bytes: seq<byte>)
    requires |head| == 72
    ensures |bytes| == 108
  {
    head + FeeBytes(s.older) + FeeBytes(s.newer)
  }

  /** A rate above 10000 is refused. */
  lemma ConfigIsRead(head: seq<byte>, s: MintFeeSchedule)
    requires |head| == 72
    ensures ScheduleAt(ConfigBytes(head, s)) ==
            if s.older.bps <= 10_000 && s.newer.bps <= 10_000 then Ok(s) else Err(InvalidRate)
  {
    var bytes := ConfigBytes(head, s);
    assert bytes[72..90] == FeeBytes(s.older);
    assert bytes[90..108] == FeeBytes(s.newer);
    FeeIsRead(s.older);
    FeeIsRead(s.newer);
  }

  predicate NoConfig(extensions: seq<Extension>) {
    forall i :: 0 <= i < |extensions| ==> extensions[i].kind != 1
  }

  lemma {:induction false} VerdictSkips(before: seq<Extension>, rest: seq<Extension>, found: Option<MintFeeSchedule>)
    requires NoConfig(before)
    ensures Verdict(before + rest, found) == Verdict(rest, found)
  {
    if before == [] {
      assert before + rest == rest;
    } else {
      VerdictSkips(before[1..], rest, found);
      assert (before + rest)[0] == before[0] && (before + rest)[1..] == before[1..] + rest;
    }
  }

  /** The schedule of an extended mint is that of its one extension of kind 1, wherever it stands
      among the others. */
  lemma ConfigIsDecoded(data: seq<byte>, before: seq<Extension>, head: seq<byte>, s: MintFeeSchedule,
                        after: seq<Extension>, padding: nat)
    requires ExtendedMint(Token2022, data) && |head| == 72 && s.Valid()
    requires NoConfig(before) && NoConfig(after)
    requires Lists(data[166..], before + [Extension(1, ConfigBytes(head, s))] + after, padding)
    ensures Decode(Token2022, data) == Ok(Some(s))
  {
    var config := Extension(1, ConfigBytes(head, s));
    WalkReadsExtensions(before + [config] + after, padding, None);
    OneConfig(before, config, after, head, s);
  }

  lemma OneConfig(before: seq<Extension>, config: Extension, after: seq<Extension>, head: seq<byte>, s: MintFeeSchedule)
    requires NoConfig(before) && NoConfig(after) && |head| == 72 && s.Valid()
    requires config == Extension(1, ConfigBytes(head, s))
    ensures Verdict(before + [config] + after, None) == Ok(Some(s))
  {
    ConfigIsRead(head, s);
    assert before + [config] + after == before + ([config] + after);
    VerdictSkips(before, [config] + after, None);
    VerdictSkips(after, [], Some(s));
    assert ([config] + after)[1..] == after && after + [] == after;
  }

  /** The first extension of kind 1 from an index on, or the end. */
  function FirstConfig(extensions: seq<Extension>, from: nat): (i: nat)
    requires from <= |extensions|
    ensures from <= i <= |extensions| && (i < |extensions| ==> extensions[i].kind == 1)
    ensures forall k :: from <= k < i ==> extensions[k].kind != 1
    decreases |extensions| - from
  {
    if from == |extensions| || extensions[from].kind == 1 then from else FirstConfig(extensions, from + 1)
  }

  lemma {:induction false} VerdictFrom(extensions: seq<Extension>, from: nat, found: Option<MintFeeSchedule>)
    requires from <= |extensions|
    ensures var i := FirstConfig(extensions, from);
            Verdict(extensions[from..], found) == Verdict(extensions[i..], found)
    decreases |extensions| - from
  {
    if from < |extensions| && extensions[from].kind != 1 {
      VerdictFrom(extensions, from + 1, found);
      assert extensions[from..][1..] == extensions[from + 1..];
    }
  }

  /** What a list of extensions says: no schedule without an extension of kind 1; that of the only
      one, if it is well-formed; a second one is refused, and so is one of the wrong length or with
      a wrong rate. */
  lemma VerdictMeans(extensions: seq<Extension>)
    ensures var i := FirstConfig(extensions, 0);
            var r := Verdict(extensions, None);
            if i == |extensions| then r == Ok(None)
            else if |extensions[i].value| != 108 then r == Err(InvalidFeeConfig)
            else match ScheduleAt(extensions[i].value)
              case Err(e) => r == Err(e)
              case Ok(s) => r == if FirstConfig(extensions, i + 1) == |extensions| then Ok(Some(s))
                                 else Err(InvalidFeeConfig)
  {
    var i := FirstConfig(extensions, 0);
    VerdictFrom(extensions, 0, None);
    assert extensions[0..] == extensions;
    if i < |extensions| {
      AtConfig(extensions[i], extensions[i + 1..]);
      assert extensions[i..] == [extensions[i]] + extensions[i + 1..];
      if |extensions[i].value| == 108 && ScheduleAt(extensions[i].value).Ok? {
        AfterConfig(extensions, i + 1, ScheduleAt(extensions[i].value).value);
      }
    }
  }

  lemma AtConfig(config: Extension, rest: seq<Extension>)
    requires config.kind == 1
    ensures Verdict([config] + rest, None) ==
            if |config.value| != 108 then Err(InvalidFeeConfig)
            else if ScheduleAt(config.value).Err? then Err(ScheduleAt(config.value).error)
            else Verdict(rest, Some(ScheduleAt(config.value).value))
  {
    assert ([config] + rest)[1..] == rest;
  }

  lemma AfterConfig(extensions: seq<Extension>, from: nat, s: MintFeeSchedule)
    requires from <= |extensions|
    ensures Verdict(extensions[from..], Some(s)) ==
            if FirstConfig(extensions, from) == |extensions| then Ok(Some(s)) else Err(InvalidFeeConfig)
  {
    VerdictFrom(extensions, from, Some(s));
  }

  // ----- why an account is refused -----

  lemma RefusedAccounts(owner: Owner, data: seq<byte>)
    ensures Decode(owner, data) == Err(InvalidMint) <==> owner == Other || |data| < 82 || data[45] != 1
    ensures Decode(owner, data) == Err(InvalidExtendedMint) <==>
            owner != Other && |data| > 82 && data[45] == 1 && !ExtendedMint(owner, data)
  {
    if ExtendedMint(owner, data) {
      var extensions, rest := WalkErrors(data[166..], None);
    }
  }

  /** What is cut off: after the extensions that were read there is something, not all zero, that is
      shorter than a header, or than its header says. */
  lemma {:induction false} WalkErrors(area: seq<byte>, found: Option<MintFeeSchedule>)
    returns (extensions: seq<Extension>, rest: seq<byte>)
    ensures Walk(area, found) != Err(InvalidMint) && Walk(area, found) != Err(InvalidExtendedMint)
    ensures Walk(area, found) in {Err(TruncatedHeader), Err(TruncatedValue)} ==>
              && AllFit(extensions) && area == EncodeAll(extensions) + rest && !AllZero(rest)
              && Verdict(extensions, found).Ok?
              && if Walk(area, found) == Err(TruncatedHeader) then |rest| < 4
                 else 4 <= |rest| < 4 + FromLe(rest[2..4])
    decreases |area|
  {
    extensions, rest := [], area;
    if !AllZero(area) && |area| >= 4 && |area| >= 4 + FromLe(area[2..4]) {
      var e, tail := FrontExtension(area);
      if e.kind != FEE_CONFIG || (found.None? && |e.value| == FEE_CONFIG_LENGTH && ScheduleAt(e.value).Ok?) {
        var next := if e.kind == FEE_CONFIG then Some(ScheduleAt(e.value).value) else found;
        var others;
        others, rest := WalkErrors(tail, next);
        extensions := [e] + others;
        EncodeFront(e, others, tail, rest);
      }
    }
  }

  /** The extension at the front of an area. */
  lemma FrontExtension(area: seq<byte>) returns (e: Extension, tail: seq<byte>)
    requires |area| >= 4 && |area| >= 4 + FromLe(area[2..4])
    ensures e.Fits() && area == Encode(e) + tail && |tail| < |area|
    ensures e.kind == FromLe(area[..2]) && |e.value| == FromLe(area[2..4])
    ensures e.value == area[4..4 + |e.value|] && tail == area[4 + |e.value|..]
  {
    Widths();
    FromLeBound(area[..2]);
    FromLeBound(area[2..4]);
    LeUnique(area[..2]);
    LeUnique(area[2..4]);
    var length := FromLe(area[2..4]);
    e, tail := Extension(FromLe(area[..2]), area[4..4 + length]), area[4 + length..];
    assert area == area[..2] + area[2..4] + area[4..4 + length] + tail;
  }

  lemma EncodeFront(e: Extension, others: seq<Extension>, tail: seq<byte>, rest: seq<byte>)
    ensures tail == EncodeAll(others) + rest ==> Encode(e) + tail == EncodeAll([e] + others) + rest
    ensures ([e] + others)[1..] == others
  {
    var all := [e] + others;
    assert all[1..] == others;
    assert EncodeAll(all) == Encode(e) + EncodeAll(others);
    assert Encode(e) + (EncodeAll(others) + rest) == Encode(e) + EncodeAll(others) + rest;
  }
}
