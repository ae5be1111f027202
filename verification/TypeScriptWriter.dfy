/** The TypeScript canonical writer: a list of chunks that are joined at the end. */
module TypeScriptWriter {
  import opened Wrappers
  import opened Bytes
  import opened CanonicalBytes

  const MAX_SAFE_INTEGER: int := 0x1f_ffff_ffff_ffff

  /** `decodeHex`: the shape of the whole string is checked before any of it is decoded. */
  function TsDecodeHex(value: CanonicalBytes.Text): Result<seq<byte>, WriteError> {
    if |value| < 16 || |value| % 2 != 0 || !LowerHex(value) then Err(InvalidDataHex)
    else
      PairsDecode(value);
      Ok(DecodePairs(value).value)
  }

  lemma HexReadersAgree(value: CanonicalBytes.Text)
    ensures TsDecodeHex(value) == DecodeHex(value)
  {
    if |value| % 2 == 0 {
      PairsDecode(value);
    }
  }

  class CanonicalWriter {
    var chunks: seq<seq<byte>>

    ghost function Contents(): seq<byte>
      reads this
    {
      Concat(chunks)
    }

    constructor ()
      ensures Contents() == []
    {
      chunks := [];
    }

    method Push(chunk: seq<byte>)
      modifies this
      ensures Contents() == old(Contents()) + chunk
    {
      chunks := chunks + [chunk];
    }

    method U8(value: byte)
      modifies this
      ensures Contents() == old(Contents()) + [value]
    {
      Push([value]);
    }

    method U32(value: int) returns (e: Option<WriteError>)
      modifies this
      ensures e == if 0 <= value < LIMIT then None else Some(ParityMismatch)
      ensures Contents() == if e.None? then old(Contents()) + ToLe(value, 4) else old(Contents())
    {
      if !(-MAX_SAFE_INTEGER <= value <= MAX_SAFE_INTEGER) || value < 0 || value > 0xffff_ffff {
        return Some(ParityMismatch);
      }
      Push(ToLe(value, 4));
      e := None;
    }

    method U64(value: int) returns (e: Option<WriteError>)
      modifies this
      ensures e == if 0 <= value <= MAX_SAFE_INTEGER then None else Some(ParityMismatch)
      ensures e.None? ==> Contents() == old(Contents()) + ToLe(value, 8)
    {
      if !(-MAX_SAFE_INTEGER <= value <= MAX_SAFE_INTEGER) || value < 0 {
        return Some(ParityMismatch);
      }
      Push(ToLe(value, 8));
      e := None;
    }

    /** `string` and `bytes`, which write the same way. */
    method Text(value: CanonicalBytes.Text) returns (e: Option<WriteError>)
      modifies this
      ensures e == if Fits(value) then None else Some(ParityMismatch)
      ensures e.None? ==> Contents() == old(Contents()) + TextBytes(value)
    {
      e := U32(|value|);
      if e.None? {
        Push(value);
      }
    }

    method WriteAccount(a: Account) returns (e: Option<WriteError>)
      modifies this
      ensures e == if AccountFits(a) then None else Some(ParityMismatch)
      ensures e.None? ==> Contents() == old(Contents()) + AccountBytes(a)
    {
      e := Text(a.name);
      if e.Some? { return; }
      e := Text(a.address);
      if e.Some? { return; }
      U8(if a.writable then 1 else 0);
      U8(if a.signer then 1 else 0);
    }

    method WriteEachAccount(accounts: seq<Account>) returns (e: Option<WriteError>)
      modifies this
      ensures e == if forall k :: 0 <= k < |accounts| ==> AccountFits(accounts[k]) then None else Some(ParityMismatch)
      ensures e.None? ==> Contents() == old(Contents()) + ListBytes(accounts)
    {
      e := None;
      for k := 0 to |accounts|
        invariant e.None?
        invariant forall j :: 0 <= j < k ==> AccountFits(accounts[j])
        invariant Contents() + ListBytes(accounts[k..]) == old(Contents()) + ListBytes(accounts)
      {
        NextAccount(accounts, k);
        Regroup(Contents(), AccountBytes(accounts[k]), [], ListBytes(accounts[k + 1..]));
        e := WriteAccount(accounts[k]);
        if e.Some? { return; }
      }
    }

    /** A count and the accounts, one by one. */
    method WriteAccounts(accounts: seq<Account>) returns (e: Option<WriteError>)
      modifies this
      ensures e == if ListFits(accounts) then None else Some(ParityMismatch)
      ensures e.None? ==> Contents() == old(Contents()) + CountedBytes(accounts)
    {
      e := U32(|accounts|);
      if e.Some? { return; }
      e := WriteEachAccount(accounts);
      Regroup(old(Contents()), ToLe(|accounts|, 4), [], ListBytes(accounts));
    }

    method WriteNames(i: Instruction) returns (e: Option<WriteError>)
      modifies this
      ensures e == if NamesFit(i) then None else Some(ParityMismatch)
      ensures e.None? ==> Contents() == old(Contents()) + NameBytes(i)
    {
      e := Text(i.specificationKey);
      if e.Some? { return; }
      e := Text(i.program);
      if e.Some? { return; }
      e := Text(i.programId);
      if e.Some? { return; }
      e := Text(i.instructionName);
      Appended(old(Contents()), TextBytes(i.specificationKey), TextBytes(i.program), TextBytes(i.programId),
               TextBytes(i.instructionName));
    }

    method WriteInstruction(i: Instruction) returns (e: Option<WriteError>)
      modifies this
      ensures e == InstructionError(i)
      ensures e.None? ==> Contents() == old(Contents()) + InstructionBytes(i)
    {
      e := WriteNames(i);
      if e.Some? { return; }
      HexReadersAgree(i.dataHex);
      var data := TsDecodeHex(i.dataHex);
      if data.Err? { return Some(data.error); }
      e := Text(data.value);
      if e.Some? { return; }
      e := WriteAccounts(i.accounts);
      if e.Some? { return; }
      e := WriteAccounts(i.remainingAccounts);
      Appended(old(Contents()), NameBytes(i), TextBytes(DataOf(i)), CountedBytes(i.accounts),
               CountedBytes(i.remainingAccounts));
    }

    method WriteIntentNames(i: Intent) returns (e: Option<WriteError>)
      modifies this
      ensures e == if IntentFits(i) then None else Some(ParityMismatch)
      ensures e.None? ==> Contents() == old(Contents()) + IntentBytes(i)
    {
      e := Text(i.intentId);
      if e.Some? { return; }
      e := Text(i.protocolRevision);
      if e.Some? { return; }
      e := Text(i.action);
      if e.Some? { return; }
      e := Text(i.jobKind);
      if e.Some? { return; }
      e := Text(i.market);
      if e.Some? { return; }
      e := Text(i.target);
      ghost var four :=
        TextBytes(i.intentId) + TextBytes(i.protocolRevision) + TextBytes(i.action) + TextBytes(i.jobKind);
      Appended(old(Contents()), TextBytes(i.intentId), TextBytes(i.protocolRevision), TextBytes(i.action),
               TextBytes(i.jobKind));
      Appended(old(Contents()), four, TextBytes(i.market), TextBytes(i.target), []);
    }

    method WriteEachHook(hooks: seq<Instruction>) returns (e: Option<WriteError>)
      modifies this
      ensures e == HooksError(hooks)
      ensures e.None? ==> Contents() == old(Contents()) + HookBytes(hooks)
    {
      e := None;
      for k := 0 to |hooks|
        invariant e.None? && HooksError(hooks) == HooksError(hooks[k..])
        invariant Contents() + HookBytes(hooks[k..]) == old(Contents()) + HookBytes(hooks)
      {
        NextHook(hooks, k);
        Regroup(Contents(), InstructionBytes(hooks[k]), [], HookBytes(hooks[k + 1..]));
        e := WriteInstruction(hooks[k]);
        if e.Some? { return; }
      }
    }

    method WriteHooks(hooks: seq<Instruction>) returns (e: Option<WriteError>)
      modifies this
      ensures e == if |hooks| >= LIMIT then Some(ParityMismatch) else HooksError(hooks)
      ensures e.None? ==> Contents() == old(Contents()) + (ToLe(|hooks|, 4) + HookBytes(hooks))
    {
      e := U32(|hooks|);
      if e.Some? { return; }
      e := WriteEachHook(hooks);
      Regroup(old(Contents()), ToLe(|hooks|, 4), [], HookBytes(hooks));
    }
  }

  method WriteHead(writer: CanonicalWriter, e: Envelope) returns (error: Option<WriteError>)
    modifies writer
    ensures error == if IntentFits(e.intent) && Fits(e.intent.expectedStateHash)
                        && e.intent.observedSlot <= MAX_SAFE_INTEGER
                     then None else Some(ParityMismatch)
    ensures error.None? ==> writer.Contents() == old(writer.Contents()) + HeadBytes(e)
  {
    writer.U8(e.schemaVersion);
    writer.U8(e.intent.schemaVersion);
    error := writer.WriteIntentNames(e.intent);
    if error.Some? { return; }
    error := writer.U64(e.intent.observedSlot);
    if error.Some? { return; }
    error := writer.Text(e.intent.expectedStateHash);
    ghost var start, versions := old(writer.Contents()), [e.schemaVersion, e.intent.schemaVersion];
    assert start + [e.schemaVersion] + [e.intent.schemaVersion] == start + versions;
    Appended(start, versions, IntentBytes(e.intent), ToLe(e.intent.observedSlot, 8),
             TextBytes(e.intent.expectedStateHash));
  }

  /** `envelopeParitySha256`, up to the hash. The two languages write the same bytes, or fail
      alike, for every slot a JavaScript number holds exactly; beyond that only Rust writes. */
  method EnvelopeParityBytes(e: Envelope) returns (r: Canonical)
    ensures r == if e.intent.observedSlot <= 9_007_199_254_740_991 then CanonicalOf(e) else Err(ParityMismatch)
  {
    var writer := new CanonicalWriter();
    var error := WriteHead(writer, e);
    if error.Some? { return Err(error.value); }
    assert writer.Contents() == HeadBytes(e);
    error := writer.WriteInstruction(e.primary);
    if error.Some? { return Err(error.value); }
    error := writer.WriteHooks(e.hooks);
    if error.Some? { return Err(error.value); }
    r := Ok(Concat(writer.chunks));
  }
}
