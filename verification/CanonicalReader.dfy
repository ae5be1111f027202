/**
 A reader of canonical bytes. It takes the fields off the front in the order in which the
 format lists them, without looking at how they were written.
 */
module CanonicalReader {
  import opened Wrappers
  import opened Bytes
  import opened CanonicalBytes

  /** What was taken off the front, and what is left. */
  datatype Taken<T> = Taken(value: T, rest: seq<byte>)

  function TakeU32(s: seq<byte>): Option<Taken<nat>> {
    if |s| < 4 then None else Some(Taken(FromLe(s[..4]), s[4..]))
  }

  function TakeText(s: seq<byte>): Option<Taken<Text>> {
    match TakeU32(s)
    case None => None
    case Some(length) =>
      if |length.rest| < length.value then None
      else Some(Taken(length.rest[..length.value], length.rest[length.value..]))
  }

  function TakeTexts(n: nat, s: seq<byte>): (r: Option<Taken<seq<Text>>>)
    ensures r.Some? ==> |r.value.value| == n
  {
    if n == 0 then Some(Taken([], s))
    else match TakeText(s)
      case None => None
      case Some(first) =>
        match TakeTexts(n - 1, first.rest)
        case None => None
        case Some(others) => Some(Taken([first.value] + others.value, others.rest))
  }

  function TakeFlag(s: seq<byte>): Option<Taken<bool>> {
    if s == [] || s[0] > 1 then None else Some(Taken(s[0] == 1, s[1..]))
  }

  /** Name and address, then whether it is writable, then whether it signs. */
  function TakeAccount(s: seq<byte>): Option<Taken<Account>> {
    match TakeTexts(2, s)
    case None => None
    case Some(texts) =>
      match TakeFlag(texts.rest)
      case None => None
      case Some(writable) =>
        match TakeFlag(writable.rest)
        case None => None
        case Some(signer) =>
          Some(Taken(Account(texts.value[0], texts.value[1], writable.value, signer.value), signer.rest))
  }

  function TakeList(n: nat, s: seq<byte>): Option<Taken<seq<Account>>> {
    if n == 0 then Some(Taken([], s))
    else match TakeAccount(s)
      case None => None
      case Some(first) =>
        match TakeList(n - 1, first.rest)
        case None => None
        case Some(others) => Some(Taken([first.value] + others.value, others.rest))
  }

  function TakeCounted(s: seq<byte>): Option<Taken<seq<Account>>> {
    match TakeU32(s)
    case None => None
    case Some(count) => TakeList(count.value, count.rest)
  }

  /** Specification key, program, program id, instruction name and data, then the accounts, then
      the remaining accounts. */
  function TakeInstruction(s: seq<byte>): Option<Taken<Instruction>> {
    match TakeTexts(5, s)
    case None => None
    case Some(texts) =>
      match TakeCounted(texts.rest)
      case None => None
      case Some(accounts) =>
        match TakeCounted(accounts.rest)
        case None => None
        case Some(remaining) =>
          var t := texts.value;
          Some(Taken(Instruction(t[0], t[1], t[2], t[3], HexOf(t[4]), accounts.value, remaining.value), remaining.rest))
  }

  function TakeHooks(n: nat, s: seq<byte>): Option<Taken<seq<Instruction>>> {
    if n == 0 then Some(Taken([], s))
    else match TakeInstruction(s)
      case None => None
      case Some(first) =>
        match TakeHooks(n - 1, first.rest)
        case None => None
        case Some(others) => Some(Taken([first.value] + others.value, others.rest))
  }

  /** Both schema versions; intent id, revision, action, job kind, market and target. */
  function TakeIntent(s: seq<byte>): Option<Taken<(byte, Intent)>> {
    if |s| < 2 then None
    else match TakeTexts(6, s[2..])
      case None => None
      case Some(texts) =>
        if |texts.rest| < 8 then None
        else
          FromLeBound(texts.rest[..8]);
          Widths();
          match TakeText(texts.rest[8..])
          case None => None
          case Some(hash) =>
            var t := texts.value;
            Some(Taken((s[0], Intent(s[1], t[0], t[1], t[2], t[3], t[4], t[5], FromLe(texts.rest[..8]), hash.value)),
                       hash.rest))
  }

  /** The intent with its slot and state hash, the primary instruction, and the hooks; nothing may
      be left. */
  function ReadEnvelope(s: seq<byte>): Option<Envelope> {
    match TakeIntent(s)
    case None => None
    case Some(intent) =>
      match TakeInstruction(intent.rest)
      case None => None
      case Some(primary) =>
        match TakeU32(primary.rest)
        case None => None
        case Some(count) =>
          match TakeHooks(count.value, count.rest)
          case None => None
          case Some(hooks) =>
            if hooks.rest != [] then None
            else Some(Envelope(intent.value.0, intent.value.1, primary.value, hooks.value, []))
  }

  // ----- what is written is read -----

  lemma U32IsTaken(n: nat, s: seq<byte>)
    requires n < LIMIT
    ensures TakeU32(ToLe(n, 4) + s) == Some(Taken(n, s))
  {
    LeFits(n, 4);
    Front(ToLe(n, 4), s);
  }

  lemma Front(a: seq<byte>, s: seq<byte>)
    ensures (a + s)[..|a|] == a && (a + s)[|a|..] == s
  {
  }

  lemma TextIsTaken(t: Text, s: seq<byte>)
    requires Fits(t)
    ensures TakeText(TextBytes(t) + s) == Some(Taken(t, s))
  {
    Regroup(ToLe(|t|, 4), t, [], s);
    U32IsTaken(|t|, t + s);
    Front(t, s);
  }

  function TextsBytes(texts: seq<Text>): seq<byte> {
    if texts == [] then [] else TextBytes(texts[0]) + TextsBytes(texts[1..])
  }

  predicate AllFit(texts: seq<Text>) {
    forall k :: 0 <= k < |texts| ==> Fits(texts[k])
  }

  lemma {:induction false} TextsAreTaken(texts: seq<Text>, s: seq<byte>)
    requires AllFit(texts)
    ensures TakeTexts(|texts|, TextsBytes(texts) + s) == Some(Taken(texts, s))
  {
    if texts == [] {
      assert TextsBytes(texts) + s == s;
    } else {
      Regroup(TextBytes(texts[0]), TextsBytes(texts[1..]), [], s);
      TextIsTaken(texts[0], TextsBytes(texts[1..]) + s);
      TextsAreTaken(texts[1..], s);
      assert texts == [texts[0]] + texts[1..];
    }
  }

  lemma TextsCons(t: Text, rest: seq<Text>)
    ensures TextsBytes([t] + rest) == TextBytes(t) + TextsBytes(rest)
  {
    assert ([t] + rest)[1..] == rest;
  }

  lemma TwoTexts(a: Text, b: Text)
    ensures TextsBytes([a, b]) == TextBytes(a) + TextBytes(b)
  {
    TextsCons(b, []);
    TextsCons(a, [b]);
    assert [a] + [b] == [a, b];
    assert TextBytes(b) + [] == TextBytes(b);
  }

  /** Texts written one after the other, whatever stands before them. */
  lemma {:induction false} TextsSnoc(texts: seq<Text>, t: Text)
    ensures TextsBytes(texts + [t]) == TextsBytes(texts) + TextBytes(t)
  {
    if texts == [] {
      TextsCons(t, []);
      assert texts + [t] == [t] + [];
    } else {
      TextsSnoc(texts[1..], t);
      assert (texts + [t])[1..] == texts[1..] + [t] && (texts + [t])[0] == texts[0];
      assert TextBytes(texts[0]) + (TextsBytes(texts[1..]) + TextBytes(t))
             == TextBytes(texts[0]) + TextsBytes(texts[1..]) + TextBytes(t);
    }
  }

  lemma FourTexts(a: Text, b: Text, c: Text, d: Text)
    ensures TextsBytes([a, b, c, d]) == TextBytes(a) + TextBytes(b) + TextBytes(c) + TextBytes(d)
  {
    TwoTexts(a, b);
    TextsSnoc([a, b], c);
    TextsSnoc([a, b] + [c], d);
    assert [a, b] + [c] + [d] == [a, b, c, d];
  }

  lemma FlagIsTaken(b: bool, s: seq<byte>)
    ensures TakeFlag(Flag(b) + s) == Some(Taken(b, s))
  {
    Front(Flag(b), s);
  }

  lemma AccountIsTaken(a: Account, s: seq<byte>)
    requires AccountFits(a)
    ensures TakeAccount(AccountBytes(a) + s) == Some(Taken(a, s))
  {
    var texts, flags := [a.name, a.address], Flag(a.writable) + (Flag(a.signer) + s);
    TwoTexts(a.name, a.address);
    Regroup(TextsBytes(texts), Flag(a.writable), Flag(a.signer), s);
    TextsAreTaken(texts, flags);
    FlagIsTaken(a.writable, Flag(a.signer) + s);
    FlagIsTaken(a.signer, s);
  }

  lemma {:induction false} ListIsTaken(accounts: seq<Account>, s: seq<byte>)
    requires ListFits(accounts)
    ensures TakeList(|accounts|, ListBytes(accounts) + s) == Some(Taken(accounts, s))
  {
    if accounts == [] {
      assert ListBytes(accounts) + s == s;
    } else {
      Regroup(AccountBytes(accounts[0]), ListBytes(accounts[1..]), [], s);
      AccountIsTaken(accounts[0], ListBytes(accounts[1..]) + s);
      ListIsTaken(accounts[1..], s);
      assert accounts == [accounts[0]] + accounts[1..];
    }
  }

  lemma CountedIsTaken(accounts: seq<Account>, s: seq<byte>)
    requires ListFits(accounts)
    ensures TakeCounted(CountedBytes(accounts) + s) == Some(Taken(accounts, s))
  {
    Regroup(ToLe(|accounts|, 4), ListBytes(accounts), [], s);
    U32IsTaken(|accounts|, ListBytes(accounts) + s);
    ListIsTaken(accounts, s);
  }

  lemma InstructionIsTaken(i: Instruction, s: seq<byte>)
    requires InstructionError(i).None?
    ensures TakeInstruction(InstructionBytes(i) + s) == Some(Taken(i, s))
  {
    var names := [i.specificationKey, i.program, i.programId, i.instructionName];
    var texts := names + [DataOf(i)];
    FourTexts(names[0], names[1], names[2], names[3]);
    TextsSnoc(names, DataOf(i));
    var accounts, remaining := CountedBytes(i.accounts), CountedBytes(i.remainingAccounts);
    Regroup(TextsBytes(texts), accounts, remaining, s);
    TextsAreTaken(texts, accounts + (remaining + s));
    CountedIsTaken(i.accounts, remaining + s);
    CountedIsTaken(i.remainingAccounts, s);
    HexOfPairs(i.dataHex);
  }

  lemma {:induction false} HooksAreTaken(hooks: seq<Instruction>)
    requires HooksError(hooks).None?
    ensures TakeHooks(|hooks|, HookBytes(hooks)) == Some(Taken(hooks, []))
  {
    if hooks != [] {
      InstructionIsTaken(hooks[0], HookBytes(hooks[1..]));
      HooksAreTaken(hooks[1..]);
      assert hooks == [hooks[0]] + hooks[1..];
    }
  }

  lemma IntentTexts(i: Intent)
    ensures IntentBytes(i) == TextsBytes([i.intentId, i.protocolRevision, i.action, i.jobKind, i.market, i.target])
  {
    var four := [i.intentId, i.protocolRevision, i.action, i.jobKind];
    FourTexts(four[0], four[1], four[2], four[3]);
    TextsSnoc(four, i.market);
    TextsSnoc(four + [i.market], i.target);
    assert four + [i.market] + [i.target] == [i.intentId, i.protocolRevision, i.action, i.jobKind, i.market, i.target];
  }

  /** What follows the intent's names: slot, hash, and the rest. */
  lemma SlotIsTaken(slot: u64, hash: Text, s: seq<byte>)
    requires Fits(hash)
    ensures var r := ToLe(slot, 8) + (TextBytes(hash) + s);
            |r| >= 8 && FromLe(r[..8]) == slot && TakeText(r[8..]) == Some(Taken(hash, s))
  {
    LeFits(slot, 8);
    Front(ToLe(slot, 8), TextBytes(hash) + s);
    TextIsTaken(hash, s);
  }

  lemma IntentIsTaken(version: byte, i: Intent, s: seq<byte>)
    requires IntentFits(i) && Fits(i.expectedStateHash)
    ensures TakeIntent([version, i.schemaVersion]
                       + (IntentBytes(i) + (ToLe(i.observedSlot, 8) + (TextBytes(i.expectedStateHash) + s))))
            == Some(Taken((version, i), s))
  {
    var texts := [i.intentId, i.protocolRevision, i.action, i.jobKind, i.market, i.target];
    var after := ToLe(i.observedSlot, 8) + (TextBytes(i.expectedStateHash) + s);
    IntentTexts(i);
    Front([version, i.schemaVersion], IntentBytes(i) + after);
    TextsAreTaken(texts, after);
    SlotIsTaken(i.observedSlot, i.expectedStateHash, s);
  }

  /** The reader gives back every envelope that was written, but for the stored digest. */
  lemma WrittenIsRead(e: Envelope)
    requires CanonicalOf(e).Ok?
    ensures ReadEnvelope(CanonicalOf(e).value) == Some(e.(paritySha256 := []))
  {
    var hooks := ToLe(|e.hooks|, 4) + HookBytes(e.hooks);
    EnvelopeGrouped(e);
    IntentIsTaken(e.schemaVersion, e.intent, InstructionBytes(e.primary) + hooks);
    InstructionIsTaken(e.primary, hooks);
    U32IsTaken(|e.hooks|, HookBytes(e.hooks));
    HooksAreTaken(e.hooks);
  }
}
