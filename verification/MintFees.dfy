/**
 The fee configuration of a mint: a walk over the type-length-value extensions
 that follow the mint's base layout.
 */
module MintFees {
  import opened Wrappers
  import opened Bytes
  import opened TransferFees

  datatype DecodeError =
    | InvalidMint
    | InvalidExtendedMint
    | TruncatedHeader
    | TruncatedValue
    | InvalidFeeConfig
    | InvalidRate

  type Decoded = Result<Option<MintFeeSchedule>, DecodeError>

  datatype Owner = Token | Token2022 | Other

  const FEE_CONFIG: u16 := 1
  const FEE_CONFIG_LENGTH: nat := 108

  function FeeAt(value: seq<byte>): (fee: TransferFee)
    requires |value| == 18
    ensures ToLe(fee.epoch, 8) + ToLe(fee.maximum, 8) + ToLe(fee.bps, 2) == value
  {
    Widths();
    FromLeBound(value[0..8]);
    FromLeBound(value[8..16]);
    FromLeBound(value[16..18]);
    LeUnique(value[0..8]);
    LeUnique(value[8..16]);
    LeUnique(value[16..18]);
    assert value == value[0..8] + value[8..16] + value[16..18];
    TransferFee(FromLe(value[0..8]), FromLe(value[16..18]), FromLe(value[8..16]))
  }

  /** The schedule in the value of a fee config extension. */
  function ScheduleAt(value: seq<byte>): Result<MintFeeSchedule, DecodeError>
    requires |value| == FEE_CONFIG_LENGTH
  {
    var older, newer := FeeAt(value[72..90]), FeeAt(value[90..108]);
    if !older.Valid() || !newer.Valid() then Err(InvalidRate) else Ok(MintFeeSchedule(older, newer))
  }

  // ----- what a list of extensions says -----

  datatype Extension = Extension(kind: u16, value: seq<byte>)
  {
    predicate Fits() { |value| < 0x1_0000 }
  }

  function Encode(e: Extension): seq<byte> {
    ToLe(e.kind, 2) + ToLe(|e.value|, 2) + e.value
  }

  function EncodeAll(extensions: seq<Extension>): seq<byte> {
    if extensions == [] then [] else Encode(extensions[0]) + EncodeAll(extensions[1..])
  }

  /** At most one extension is a fee config, of the right length, with valid rates;
      everything else is skipped. */
  function Verdict(extensions: seq<Extension>, found: Option<MintFeeSchedule>): Decoded {
    if extensions == [] then Ok(found)
    else
      var e := extensions[0];
      if e.kind != FEE_CONFIG then Verdict(extensions[1..], found)
      else if found.Some? || |e.value| != FEE_CONFIG_LENGTH then Err(InvalidFeeConfig)
      else match ScheduleAt(e.value)
        case Err(code) => Err(code)
        case Ok(s) => Verdict(extensions[1..], Some(s))
  }

  predicate AllFit(extensions: seq<Extension>) {
    forall i :: 0 <= i < |extensions| ==> extensions[i].Fits()
  }

  // ----- the walk -----

  /** The walk over an area of extensions as it stands. */
  function Walk(area: seq<byte>, found: Option<MintFeeSchedule>): Decoded {
    if AllZero(area) then Ok(found)
    else if |area| < 4 then Err(TruncatedHeader)
    else
      var kind, length := FromLe(area[..2]), FromLe(area[2..4]);
      if |area| < 4 + length then Err(TruncatedValue)
      else
        var value, rest := area[4..4 + length], area[4 + length..];
        if kind != FEE_CONFIG then Walk(rest, found)
        else if found.Some? || length != FEE_CONFIG_LENGTH then Err(InvalidFeeConfig)
        else match ScheduleAt(value)
          case Err(code) => Err(code)
          case Ok(s) => Walk(rest, Some(s))
  }

  function Decode(owner: Owner, data: seq<byte>): Decoded {
    if owner == Other || |data| < 82 || data[45] != 1 then Err(InvalidMint)
    else if |data| == 82 then Ok(None)
    else if owner == Token || |data| <= 165 || |data| == 355 || data[165] != 1 then Err(InvalidExtendedMint)
    else Walk(data[166..], None)
  }

  /** One step of the walk, told in positions of the whole account. */
  lemma WalkAt(data: seq<byte>, cursor: nat, found: Option<MintFeeSchedule>, kind: nat, length: nat)
    requires cursor <= |data| && !AllZero(data[cursor..])
    requires cursor + 4 <= |data| ==> kind == FromLe(data[cursor..cursor + 2])
    requires cursor + 4 <= |data| ==> length == FromLe(data[cursor + 2..cursor + 4])
    ensures Walk(data[cursor..], found) ==
            if |data| < cursor + 4 then Err(TruncatedHeader)
            else if |data| < cursor + 4 + length then Err(TruncatedValue)
            else if kind != FEE_CONFIG then Walk(data[cursor + 4 + length..], found)
            else if found.Some? || length != FEE_CONFIG_LENGTH then Err(InvalidFeeConfig)
            else match ScheduleAt(data[cursor + 4..cursor + 4 + length])
              case Err(code) => Err(code)
              case Ok(s) => Walk(data[cursor + 4 + length..], Some(s))
  {
    if cursor + 4 <= |data| {
      var area := data[cursor..];
      assert data[cursor..cursor + 2] == area[..2];
      assert data[cursor + 2..cursor + 4] == area[2..4];
      if cursor + 4 + length <= |data| {
        assert data[cursor + 4..cursor + 4 + length] == area[4..4 + length];
        assert data[cursor + 4 + length..] == area[4 + length..];
      }
    }
  }

  /** The loop of `decode_mint_fees`: a moving cursor and the config found so far. */
  method WalkExtensions(data: seq<byte>) returns (r: Decoded)
    requires |data| >= 166
    ensures r == Walk(data[166..], None)
  {
    var cursor := 166;
    var result: Option<MintFeeSchedule> := None;
    while cursor < |data|
      invariant 166 <= cursor <= |data|
      invariant Walk(data[cursor..], result) == Walk(data[166..], None)
      decreases |data| - cursor
    {
      if AllZero(data[cursor..]) {
        break;
      }
      if |data| < cursor + 4 {
        WalkAt(data, cursor, result, 0, 0);
        return Err(TruncatedHeader);
      }
      var kind, length := FromLe(data[cursor..cursor + 2]), FromLe(data[cursor + 2..cursor + 4]);
      WalkAt(data, cursor, result, kind, length);
      cursor := cursor + 4;
      if |data| < cursor + length {
        return Err(TruncatedValue);
      }
      var value := data[cursor..cursor + length];
      if kind == FEE_CONFIG {
        if result.Some? || length != FEE_CONFIG_LENGTH {
          return Err(InvalidFeeConfig);
        }
        var schedule := ScheduleAt(value);
        if schedule.Err? {
          return Err(schedule.error);
        }
        result := Some(schedule.value);
      }
      cursor := cursor + length;
    }
    r := Ok(result);
  }

  method DecodeMintFees(owner: Owner, data: seq<byte>) returns (r: Decoded)
    ensures r == Decode(owner, data)
  {
    if owner == Other || |data| < 82 || data[45] != 1 {
      return Err(InvalidMint);
    }
    if |data| == 82 {
      return Ok(None);
    }
    if owner == Token || |data| <= 165 || |data| == 355 || data[165] != 1 {
      return Err(InvalidExtendedMint);
    }
    r := WalkExtensions(data);
  }

  // ----- the walk and the list -----

  lemma HeaderOf(e: Extension, rest: seq<byte>)
    requires e.Fits()
    ensures var area := Encode(e) + rest;
            && |area| >= 4 + |e.value|
            && FromLe(area[..2]) == e.kind && FromLe(area[2..4]) == |e.value|
            && area[4..4 + |e.value|] == e.value && area[4 + |e.value|..] == rest
  {
    Widths();
    LeRoundTrip(e.kind, 2);
    LeRoundTrip(|e.value|, 2);
    var area := Encode(e) + rest;
    assert area[..2] == ToLe(e.kind, 2);
    assert area[2..4] == ToLe(|e.value|, 2);
  }

  /** An all-zero area holds no fee config. */
  lemma {:induction false} ZeroAreaIsSkipped(extensions: seq<Extension>, padding: nat, found: Option<MintFeeSchedule>)
    requires AllFit(extensions) && AllZero(EncodeAll(extensions) + Zeros(padding))
    ensures Verdict(extensions, found) == Ok(found)
  {
    if extensions != [] {
      var rest := EncodeAll(extensions[1..]) + Zeros(padding);
      var area := EncodeAll(extensions) + Zeros(padding);
      assert area == Encode(extensions[0]) + rest;
      HeaderOf(extensions[0], rest);
      assert area[0] == 0 && area[1] == 0 && FromLe(area[..2]) == 0;
      assert rest == area[4 + |extensions[0].value|..];
      ZeroAreaIsSkipped(extensions[1..], padding, found);
    }
  }

  /** Whatever extensions a mint holds, followed by any zero padding, the walk finds
      exactly what they say. */
  lemma {:induction false} WalkReadsExtensions(extensions: seq<Extension>, padding: nat, found: Option<MintFeeSchedule>)
    requires AllFit(extensions)
    ensures Walk(EncodeAll(extensions) + Zeros(padding), found) == Verdict(extensions, found)
  {
    var area := EncodeAll(extensions) + Zeros(padding);
    if AllZero(area) {
      ZeroAreaIsSkipped(extensions, padding, found);
    } else if extensions != [] {
      var e, rest := extensions[0], EncodeAll(extensions[1..]) + Zeros(padding);
      assert area == Encode(e) + rest;
      HeaderOf(e, rest);
      WalkReadsExtensions(extensions[1..], padding, found);
      if e.kind == FEE_CONFIG && found == None && |e.value| == FEE_CONFIG_LENGTH && ScheduleAt(e.value).Ok? {
        WalkReadsExtensions(extensions[1..], padding, Some(ScheduleAt(e.value).value));
      }
    }
  }

  /** And every area the walk accepts is such a list with such padding. */
  lemma {:induction false} WalkAcceptsOnlyExtensions(area: seq<byte>, found: Option<MintFeeSchedule>)
    returns (extensions: seq<Extension>, padding: nat)
    requires Walk(area, found).Ok?
    ensures AllFit(extensions) && area == EncodeAll(extensions) + Zeros(padding)
    ensures Verdict(extensions, found) == Walk(area, found)
    decreases |area|
  {
    if AllZero(area) {
      extensions, padding := [], |area|;
      assert area == Zeros(padding);
    } else {
      Widths();
      FromLeBound(area[..2]);
      FromLeBound(area[2..4]);
      var length := FromLe(area[2..4]);
      var e := Extension(FromLe(area[..2]), area[4..4 + length]);
      var rest := area[4 + length..];
      LeUnique(area[..2]);
      LeUnique(area[2..4]);
      assert area == Encode(e) + rest;
      var next := if e.kind == FEE_CONFIG then Some(ScheduleAt(e.value).value) else found;
      var others;
      others, padding := WalkAcceptsOnlyExtensions(rest, next);
      extensions := [e] + others;
      assert extensions[1..] == others;
      assert EncodeAll(extensions) == Encode(e) + EncodeAll(others);
    }
  }

  lemma {:induction false} WalkedIsValid(area: seq<byte>, found: Option<MintFeeSchedule>)
    requires Walk(area, found).Ok? && Walk(area, found).value.Some?
    requires found.Some? ==> found.value.Valid()
    ensures Walk(area, found).value.value.Valid()
    decreases |area|
  {
    if !AllZero(area) {
      var length := FromLe(area[2..4]);
      var value, rest := area[4..4 + length], area[4 + length..];
      WalkedIsValid(rest, if FromLe(area[..2]) == FEE_CONFIG then Some(ScheduleAt(value).value) else found);
    }
  }

  // ----- which accounts are mints -----

  /** A mint without extensions: the 82 bytes of the base layout, initialized. */
  predicate PlainMint(owner: Owner, data: seq<byte>) {
    owner != Other && |data| == 82 && data[45] == 1
  }

  /** An account of the extension program with the mint's base layout and account type, which is
      not as long as a multisig. */
  predicate ExtendedMint(owner: Owner, data: seq<byte>) {
    owner == Token2022 && |data| > 165 && |data| != 355 && data[45] == 1 && data[165] == 1
  }

  ghost predicate Lists(area: seq<byte>, extensions: seq<Extension>, padding: nat) {
    AllFit(extensions) && area == EncodeAll(extensions) + Zeros(padding)
  }

  /** The area is a list of extensions, followed by zeros, that says `r`. */
  ghost predicate Says(area: seq<byte>, r: Decoded) {
    exists extensions, padding :: Lists(area, extensions, padding) && Verdict(extensions, None) == r
  }

  lemma WalkSays(area: seq<byte>, schedule: Option<MintFeeSchedule>)
    ensures Walk(area, None) == Ok(schedule) <==> Says(area, Ok(schedule))
  {
    if Walk(area, None) == Ok(schedule) {
      var extensions, padding := WalkAcceptsOnlyExtensions(area, None);
      assert Lists(area, extensions, padding);
    }
    if Says(area, Ok(schedule)) {
      var extensions, padding :| Lists(area, extensions, padding) && Verdict(extensions, None) == Ok(schedule);
      WalkReadsExtensions(extensions, padding, None);
    }
  }

  /** Decoding succeeds, and with which schedule, exactly for a plain mint, which has none, and for
      an extended mint whose area is a list of extensions that says so. */
  lemma DecodesExactly(owner: Owner, data: seq<byte>, schedule: Option<MintFeeSchedule>)
    ensures Decode(owner, data) == Ok(schedule) <==>
            || (PlainMint(owner, data) && schedule == None)
            || (ExtendedMint(owner, data) && Says(data[166..], Ok(schedule)))
  {
    if ExtendedMint(owner, data) {
      WalkSays(data[166..], schedule);
    }
  }

  /** A decoded schedule always has valid rates, as the credit arithmetic needs. */
  lemma DecodedIsValid(owner: Owner, data: seq<byte>)
    requires Decode(owner, data).Ok? && Decode(owner, data).value.Some?
    ensures Decode(owner, data).value.value.Valid()
  {
    WalkedIsValid(data[166..], None);
  }
}
