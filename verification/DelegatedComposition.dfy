/**
 A delegated close carries its two hook instructions twice: as envelopes of their
 own and as bytes inside the primary instruction. The validator compares the two.
 */
module DelegatedComposition {
  import opened Wrappers
  import opened Bytes
  import opened CanonicalBytes
  import DelegatedPayload

  datatype CompositionError =
    | CpiHookMismatch
    | InvalidHex
    | DelegatedHookDataMismatch
    | RemainingAccountsMismatch
    | FixedAddressMismatch

  /** "delegated_program" */
  const DELEGATED_PROGRAM: Text :=
    [100, 101, 108, 101, 103, 97, 116, 101, 100, 95, 112, 114, 111, 103, 114, 97, 109]

  function FindName(accounts: seq<Account>, name: Text): Option<Account> {
    if accounts == [] then None
    else if accounts[0].name == name then Some(accounts[0])
    else FindName(accounts[1..], name)
  }

  method FindAccount(accounts: seq<Account>, name: Text) returns (found: Option<Account>)
    ensures found == FindName(accounts, name)
  {
    for k := 0 to |accounts|
      invariant FindName(accounts, name) == FindName(accounts[k..], name)
    {
      if accounts[k].name == name {
        return Some(accounts[k]);
      }
      assert accounts[k..][1..] == accounts[k + 1..];
    }
    found := None;
  }

  predicate HexDecodes(e: Envelope)
    requires |e.hooks| == 2
  {
    DecodeHex(e.primary.dataHex).Ok? && DecodeHex(e.hooks[0].dataHex).Ok? && DecodeHex(e.hooks[1].dataHex).Ok?
  }

  /** The primary data is some header followed by the payload of these two instructions. */
  predicate Embeds(data: seq<byte>, before: seq<byte>, after: seq<byte>, accounts: nat) {
    && |data| >= DelegatedPayload.HEADER
    && DelegatedPayload.Fits(before) && DelegatedPayload.Fits(after) && accounts < 0x1_0000
    && data[DelegatedPayload.HEADER..]
       == DelegatedPayload.Payload(DelegatedPayload.Embedded(before, after, accounts))
  }

  predicate Composed(e: Envelope) {
    && |e.hooks| == 2
    && HexDecodes(e)
    && Embeds(DataOf(e.primary), DataOf(e.hooks[0]), DataOf(e.hooks[1]), |e.hooks[0].accounts|)
    && e.primary.remainingAccounts == e.hooks[0].accounts + e.hooks[1].accounts
    && var program := FindName(e.primary.accounts, DELEGATED_PROGRAM);
       program.Some? && program.value.address == e.hooks[0].programId
  }

  lemma PayloadTells(data: seq<byte>, before: seq<byte>, after: seq<byte>, accounts: nat)
    ensures Embeds(data, before, after, accounts) <==>
            && DelegatedPayload.Decode(data).Ok?
            && DelegatedPayload.Decode(data).value.before == before
            && DelegatedPayload.Decode(data).value.after == after
            && DelegatedPayload.Decode(data).value.beforeAccounts == accounts
  {
    if Embeds(data, before, after, accounts) {
      assert data == data[..DelegatedPayload.HEADER] + data[DelegatedPayload.HEADER..];
      DelegatedPayload.DecodeOfPayload(data[..DelegatedPayload.HEADER],
                                       DelegatedPayload.Embedded(before, after, accounts));
    }
    if DelegatedPayload.Decode(data).Ok? {
      DelegatedPayload.PayloadOfDecode(data);
      var e := DelegatedPayload.Decode(data).value;
      assert data[DelegatedPayload.HEADER..] == DelegatedPayload.Payload(e);
    }
  }

  /** The primary data ends in the data of both hooks. */
  ghost predicate EmbedsData(e: Envelope)
    requires |e.hooks| == 2
  {
    exists count: nat :: Embeds(DataOf(e.primary), DataOf(e.hooks[0]), DataOf(e.hooks[1]), count)
  }

  /** And in the first hook's number of accounts, and its remaining accounts are those of both. */
  predicate EmbedsAccounts(e: Envelope)
    requires |e.hooks| == 2
  {
    && Embeds(DataOf(e.primary), DataOf(e.hooks[0]), DataOf(e.hooks[1]), |e.hooks[0].accounts|)
    && e.primary.remainingAccounts == e.hooks[0].accounts + e.hooks[1].accounts
  }

  lemma DataTells(e: Envelope)
    requires |e.hooks| == 2
    ensures EmbedsData(e) <==>
            && DelegatedPayload.Decode(DataOf(e.primary)).Ok?
            && DelegatedPayload.Decode(DataOf(e.primary)).value.before == DataOf(e.hooks[0])
            && DelegatedPayload.Decode(DataOf(e.primary)).value.after == DataOf(e.hooks[1])
  {
    var data, before, after := DataOf(e.primary), DataOf(e.hooks[0]), DataOf(e.hooks[1]);
    forall count: nat | Embeds(data, before, after, count)
      ensures DelegatedPayload.Decode(data).Ok? && DelegatedPayload.Decode(data).value.before == before
      ensures DelegatedPayload.Decode(data).value.after == after
    {
      PayloadTells(data, before, after, count);
    }
    if DelegatedPayload.Decode(data).Ok? {
      PayloadTells(data, before, after, DelegatedPayload.Decode(data).value.beforeAccounts);
    }
  }

  /** `#validateDelegatedComposition`. */
  method ValidateComposition(e: Envelope) returns (error: Option<CompositionError>)
    ensures error.None? <==> Composed(e)
    ensures error == Some(CpiHookMismatch) <==> |e.hooks| != 2
    ensures error == Some(InvalidHex) <==> |e.hooks| == 2 && !HexDecodes(e)
    ensures error == Some(DelegatedHookDataMismatch) <==> |e.hooks| == 2 && HexDecodes(e) && !EmbedsData(e)
    ensures error == Some(RemainingAccountsMismatch) <==>
            |e.hooks| == 2 && HexDecodes(e) && EmbedsData(e) && !EmbedsAccounts(e)
    ensures error == Some(FixedAddressMismatch) <==>
            |e.hooks| == 2 && HexDecodes(e) && EmbedsData(e) && EmbedsAccounts(e) && !Composed(e)
  {
    if |e.hooks| != 2 {
      return Some(CpiHookMismatch);
    }
    var primary := DecodeHex(e.primary.dataHex);
    if primary.Err? { return Some(InvalidHex); }
    var before := DecodeHex(e.hooks[0].dataHex);
    if before.Err? { return Some(InvalidHex); }
    var after := DecodeHex(e.hooks[1].dataHex);
    if after.Err? { return Some(InvalidHex); }
    var embedded := DelegatedPayload.DecodeDelegatedCpiPayload(primary.value);
    PayloadTells(primary.value, before.value, after.value, |e.hooks[0].accounts|);
    DataTells(e);
    if embedded.Err? || embedded.value.before != before.value || embedded.value.after != after.value {
      return Some(DelegatedHookDataMismatch);
    }
    if embedded.value.beforeAccounts != |e.hooks[0].accounts| {
      return Some(RemainingAccountsMismatch);
    }
    if e.primary.remainingAccounts != e.hooks[0].accounts + e.hooks[1].accounts {
      return Some(RemainingAccountsMismatch);
    }
    var program := FindAccount(e.primary.accounts, DELEGATED_PROGRAM);
    if program.None? || program.value.address != e.hooks[0].programId {
      return Some(FixedAddressMismatch);
    }
    error := None;
  }

  /** The name is spelled so. */
  lemma ProgramNameIs(k: nat)
    requires k < 17
    ensures |DELEGATED_PROGRAM| == 17 && DELEGATED_PROGRAM[k] == "delegated_program"[k] as int
  {
    if k < 9 {
      assert "delegated_program"[k] == "delegated"[k];
    } else {
      assert "delegated_program"[k] == "_program"[k - 9];
    }
  }

  lemma {:induction false} FoundIsFirst(accounts: seq<Account>, name: Text)
    ensures match FindName(accounts, name)
            case None => forall i :: 0 <= i < |accounts| ==> accounts[i].name != name
            case Some(a) => exists i :: 0 <= i < |accounts| && accounts[i] == a && a.name == name
                                        && forall j :: 0 <= j < i ==> accounts[j].name != name
  {
    if accounts != [] && accounts[0].name != name {
      FoundIsFirst(accounts[1..], name);
      var tail := accounts[1..];
      assert forall i :: 0 < i < |accounts| ==> accounts[i] == tail[i - 1];
      if FindName(tail, name).Some? {
        var i :| 0 <= i < |tail| && tail[i] == FindName(tail, name).value
                 && forall j :: 0 <= j < i ==> tail[j].name != name;
        assert accounts[i + 1] == tail[i];
      }
    }
  }

  /** In an accepted envelope the primary instruction delegates to the program of the first hook:
      the first of its accounts with that name has that program's address. */
  lemma DelegatesToFirstHook(e: Envelope) returns (i: nat)
    requires Composed(e)
    ensures i < |e.primary.accounts| && e.primary.accounts[i].name == DELEGATED_PROGRAM
    ensures e.primary.accounts[i].address == e.hooks[0].programId
    ensures forall j :: 0 <= j < i ==> e.primary.accounts[j].name != DELEGATED_PROGRAM
  {
    FoundIsFirst(e.primary.accounts, DELEGATED_PROGRAM);
    i :| 0 <= i < |e.primary.accounts| && e.primary.accounts[i] == FindName(e.primary.accounts, DELEGATED_PROGRAM).value
         && forall j :: 0 <= j < i ==> e.primary.accounts[j].name != DELEGATED_PROGRAM;
  }

  /** And nothing else that the composition asks for is missing from it. */
  lemma ComposedExactly(e: Envelope)
    ensures Composed(e) <==>
            && |e.hooks| == 2
            && DecodeHex(e.primary.dataHex).Ok?
            && DecodeHex(e.hooks[0].dataHex).Ok? && DecodeHex(e.hooks[1].dataHex).Ok?
            && DelegatedPayload.Decode(DataOf(e.primary)) ==
               Ok(DelegatedPayload.Embedded(DataOf(e.hooks[0]), DataOf(e.hooks[1]),
                                            if |e.hooks[0].accounts| < 0x1_0000 then |e.hooks[0].accounts| else 0))
            && |e.hooks[0].accounts| < 0x1_0000
            && e.primary.remainingAccounts == e.hooks[0].accounts + e.hooks[1].accounts
            && exists i :: 0 <= i < |e.primary.accounts| && IsFirstNamed(e.primary.accounts, i, DELEGATED_PROGRAM)
                           && e.primary.accounts[i].address == e.hooks[0].programId
  {
    FoundIsFirst(e.primary.accounts, DELEGATED_PROGRAM);
    if |e.hooks| == 2 {
      PayloadTells(DataOf(e.primary), DataOf(e.hooks[0]), DataOf(e.hooks[1]), |e.hooks[0].accounts|);
    }
  }

  predicate IsFirstNamed(accounts: seq<Account>, i: nat, name: Text)
    requires i < |accounts|
  {
    accounts[i].name == name && forall j :: 0 <= j < i ==> accounts[j].name != name
  }

  /** Whoever splits the remaining accounts at the embedded count recovers the accounts of
      both hooks, and the embedded bytes are the hooks' own data. */
  lemma SplitRecoversHooks(e: Envelope)
    requires Composed(e)
    ensures var embedded := DelegatedPayload.Decode(DataOf(e.primary));
            && embedded.Ok?
            && embedded.value.before == DataOf(e.hooks[0]) && embedded.value.after == DataOf(e.hooks[1])
            && embedded.value.beforeAccounts <= |e.primary.remainingAccounts|
            && e.primary.remainingAccounts[..embedded.value.beforeAccounts] == e.hooks[0].accounts
            && e.primary.remainingAccounts[embedded.value.beforeAccounts..] == e.hooks[1].accounts
  {
    PayloadTells(DataOf(e.primary), DataOf(e.hooks[0]), DataOf(e.hooks[1]), |e.hooks[0].accounts|);
  }
}
