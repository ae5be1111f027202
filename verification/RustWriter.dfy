/** The Rust canonical writer: one growing byte buffer. */
module RustWriter {
  import opened Wrappers
  import opened Bytes
  import opened CanonicalBytes

  class CanonicalWriter {
    var bytes: seq<byte>

    constructor ()
      ensures bytes == []
    {
      bytes := [];
    }

    method U8(value: byte)
      modifies this
      ensures bytes == old(bytes) + [value]
    {
      bytes := bytes + [value];
    }

    method U32(value: nat) returns (e: Option<WriteError>)
      modifies this
      ensures e == if value < LIMIT then None else Some(ParityMismatch)
      ensures bytes == if e.None? then old(bytes) + ToLe(value, 4) else old(bytes)
    {
      if value > 0xffff_ffff {
        return Some(ParityMismatch);
      }
      bytes := bytes + ToLe(value, 4);
      e := None;
    }

    method U64(value: u64)
      modifies this
      ensures bytes == old(bytes) + ToLe(value, 8)
    {
      bytes := bytes + ToLe(value, 8);
    }

    /** `string` and `byte_slice`, which write the same way. */
    method Text(value: CanonicalBytes.Text) returns (e: Option<WriteError>)
      modifies this
      ensures e == if Fits(value) then None else Some(ParityMismatch)
      ensures e.None? ==> bytes == old(bytes) + TextBytes(value)
    {
      e := U32(|value|);
      if e.None? {
        bytes := bytes + value;
      }
    }

    method WriteAccount(a: Account) returns (e: Option<WriteError>)
      modifies this
      ensures e == if AccountFits(a) then None else Some(ParityMismatch)
      ensures e.None? ==> bytes == old(bytes) + AccountBytes(a)
    {
      e := Text(a.name);
      if e.Some? { return; }
      e := Text(a.address);
      if e.Some? { return; }
      U8(if a.writable then 1 else 0);
      U8(if a.signer then 1 else 0);
    }

    method WriteEachAccount(accounts: seq<Account>) returns (e: Option<WriteError>)
      modifies this
      ensures e == if forall k :: 0 <= k < |accounts| ==> AccountFits(accounts[k]) then None else Some(ParityMismatch)
      ensures e.None? ==> bytes == old(bytes) + ListBytes(accounts)
    {
      e := None;
      for k := 0 to |accounts|
        invariant e.None?
        invariant forall j :: 0 <= j < k ==> AccountFits(accounts[j])
        invariant bytes + ListBytes(accounts[k..]) == old(bytes) + ListBytes(accounts)
      {
        NextAccount(accounts, k);
        Regroup(bytes, AccountBytes(accounts[k]), [], ListBytes(accounts[k + 1..]));
        e := WriteAccount(accounts[k]);
        if e.Some? { return; }
      }
    }

    /** A count and the accounts, one by one. */
    method WriteAccounts(accounts: seq<Account>) returns (e: Option<WriteError>)
      modifies this
      ensures e == if ListFits(accounts) then None else Some(ParityMismatch)
      ensures e.None? ==> bytes == old(bytes) + CountedBytes(accounts)
    {
      e := U32(|accounts|);
      if e.Some? { return; }
      e := WriteEachAccount(accounts);
      Regroup(old(bytes), ToLe(|accounts|, 4), [], ListBytes(accounts));
    }

    method WriteNames(i: Instruction) returns (e: Option<WriteError>)
      modifies this
      ensures e == if NamesFit(i) then None else Some(ParityMismatch)
      ensures e.None? ==> bytes == old(bytes) + NameBytes(i)
    {
      e := Text(i.specificationKey);
      if e.Some? { return; }
      e := Text(i.program);
      if e.Some? { return; }
      e := Text(i.programId);
      if e.Some? { return; }
      e := Text(i.instructionName);
      Appended(old(bytes), TextBytes(i.specificationKey), TextBytes(i.program), TextBytes(i.programId),
               TextBytes(i.instructionName));
    }

    method WriteInstruction(i: Instruction) returns (e: Option<WriteError>)
      modifies this
      ensures e == InstructionError(i)
      ensures e.None? ==> bytes == old(bytes) + InstructionBytes(i)
    {
      e := WriteNames(i);
      if e.Some? { return; }
      var data := DecodeHex(i.dataHex);
      if data.Err? { return Some(data.error); }
      e := Text(data.value);
      if e.Some? { return; }
      e := WriteAccounts(i.accounts);
      if e.Some? { return; }
      e := WriteAccounts(i.remainingAccounts);
      Appended(old(bytes), NameBytes(i), TextBytes(DataOf(i)), CountedBytes(i.accounts),
               CountedBytes(i.remainingAccounts));
    }

    method WriteIntentNames(i: Intent) returns (e: Option<WriteError>)
      modifies this
      ensures e == if IntentFits(i) then None else Some(ParityMismatch)
      ensures e.None? ==> bytes == old(bytes) + IntentBytes(i)
    {
      e := Text(i.intentId);
      if e.Some? { return; }
      e := Text(i.protocolRevision);
      if e.Some? { return; }
      e := Text(i.action);
      if e.Some? { return; }
      e := Text(i.jobKind);
      if e.Some? { return; }
      e := Text(i.market);
      if e.Some? { return; }
      e := Text(i.target);
      ghost var four :=
        TextBytes(i.intentId) + TextBytes(i.protocolRevision) + TextBytes(i.action) + TextBytes(i.jobKind);
      Appended(old(bytes), TextBytes(i.intentId), TextBytes(i.protocolRevision), TextBytes(i.action),
               TextBytes(i.jobKind));
      Appended(old(bytes), four, TextBytes(i.market), TextBytes(i.target), []);
    }

    method WriteEachHook(hooks: seq<Instruction>) returns (e: Option<WriteError>)
      modifies this
      ensures e == HooksError(hooks)
      ensures e.None? ==> bytes == old(bytes) + HookBytes(hooks)
    {
      e := None;
      for k := 0 to |hooks|
        invariant e.None? && HooksError(hooks) == HooksError(hooks[k..])
        invariant bytes + HookBytes(hooks[k..]) == old(bytes) + HookBytes(hooks)
      {
        NextHook(hooks, k);
        Regroup(bytes, InstructionBytes(hooks[k]), [], HookBytes(hooks[k + 1..]));
        e := WriteInstruction(hooks[k]);
        if e.Some? { return; }
      }
    }

    method WriteHooks(hooks: seq<Instruction>) returns (e: Option<WriteError>)
      modifies this
      ensures e == if |hooks| >= LIMIT then Some(ParityMismatch) else HooksError(hooks)
      ensures e.None? ==> bytes == old(bytes) + (ToLe(|hooks|, 4) + HookBytes(hooks))
    {
      e := U32(|hooks|);
      if e.Some? { return; }
      e := WriteEachHook(hooks);
      Regroup(old(bytes), ToLe(|hooks|, 4), [], HookBytes(hooks));
    }
  }

  method WriteHead(writer: CanonicalWriter, e: Envelope) returns (error: Option<WriteError>)
    modifies writer
    ensures error == if IntentFits(e.intent) && Fits(e.intent.expectedStateHash) then None else Some(ParityMismatch)
    ensures error.None? ==> writer.bytes == old(writer.bytes) + HeadBytes(e)
  {
    writer.U8(e.schemaVersion);
    writer.U8(e.intent.schemaVersion);
    error := writer.WriteIntentNames(e.intent);
    if error.Some? { return; }
    writer.U64(e.intent.observedSlot);
    error := writer.Text(e.intent.expectedStateHash);
    ghost var start, versions := old(writer.bytes), [e.schemaVersion, e.intent.schemaVersion];
    assert start + [e.schemaVersion] + [e.intent.schemaVersion] == start + versions;
    Appended(start, versions, IntentBytes(e.intent), ToLe(e.intent.observedSlot, 8),
             TextBytes(e.intent.expectedStateHash));
  }

  /** `envelope_parity_sha256`, up to the hash of the bytes it writes. */
  method EnvelopeParityBytes(e: Envelope) returns (r: Canonical)
    ensures r == CanonicalOf(e)
  {
    var writer := new CanonicalWriter();
    var error := WriteHead(writer, e);
    if error.Some? { return Err(error.value); }
    assert writer.bytes == HeadBytes(e);
    error := writer.WriteInstruction(e.primary);
    if error.Some? { return Err(error.value); }
    error := writer.WriteHooks(e.hooks);
    if error.Some? { return Err(error.value); }
    r := Ok(writer.bytes);
  }
}
