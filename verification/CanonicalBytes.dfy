/**
 The canonical byte string of a job envelope, which is what the parity digest
 covers: what is written, when writing fails, and that nothing in an envelope
 can change without changing the bytes.
 */
module CanonicalBytes {
  import opened Wrappers
  import opened Bytes

  /** A string, as its UTF-8 bytes. */
  type Text = seq<byte>

  datatype Account = Account(name: Text, address: Text, writable: bool, signer: bool)

  datatype Instruction = Instruction(
    specificationKey: Text,
    program: Text,
    programId: Text,
    instructionName: Text,
    dataHex: Text,
    accounts: seq<Account>,
    remainingAccounts: seq<Account>)

  datatype Intent = Intent(
    schemaVersion: byte,
    intentId: Text,
    protocolRevision: Text,
    action: Text,
    jobKind: Text,
    market: Text,
    target: Text,
    observedSlot: u64,
    expectedStateHash: Text)

  datatype Envelope = Envelope(
    schemaVersion: byte,
    intent: Intent,
    primary: Instruction,
    hooks: seq<Instruction>,
    paritySha256: Text)

  datatype WriteError = ParityMismatch | InvalidDataHex

  // ----- hex -----

  function Nibble(c: byte): (n: Option<byte>)
    ensures n.Some? ==> n.value < 16 && HexDigit(n.value) == c
  {
    if 48 <= c <= 57 then Some(c - 48)
    else if 97 <= c <= 102 then Some(c - 97 + 10)
    else None
  }

  function HexDigit(n: byte): byte
    requires n < 16
  {
    if n < 10 then n + 48 else n - 10 + 97
  }

  function DecodePairs(value: Text): (r: Option<seq<byte>>)
    requires |value| % 2 == 0
    ensures r.Some? ==> 2 * |r.value| == |value|
  {
    if value == [] then Some([])
    else match (Nibble(value[0]), Nibble(value[1]), DecodePairs(value[2..]))
      case (Some(high), Some(low), Some(rest)) => Some([16 * high + low] + rest)
      case _ => None
  }

  /** `decode_hex`. */
  function DecodeHex(value: Text): Result<seq<byte>, WriteError> {
    if |value| < 16 || |value| % 2 != 0 then Err(InvalidDataHex)
    else match DecodePairs(value)
      case None => Err(InvalidDataHex)
      case Some(bytes) => Ok(bytes)
  }

  function HexOf(bytes: seq<byte>): Text {
    if bytes == [] then [] else [HexDigit(bytes[0] / 16), HexDigit(bytes[0] % 16)] + HexOf(bytes[1..])
  }

  lemma {:induction false} HexOfPairs(value: Text)
    requires |value| % 2 == 0 && DecodePairs(value).Some?
    ensures HexOf(DecodePairs(value).value) == value
  {
    if value != [] {
      HexOfPairs(value[2..]);
      assert DecodePairs(value).value[1..] == DecodePairs(value[2..]).value;
      assert value == [value[0], value[1]] + value[2..];
    }
  }

  /** Only one hex string decodes to given bytes: upper case is refused. */
  lemma HexIsInjective(left: Text, right: Text)
    requires DecodeHex(left).Ok? && DecodeHex(left) == DecodeHex(right)
    ensures left == right
  {
    HexOfPairs(left);
    HexOfPairs(right);
  }

  // ----- which strings are hex, and what they say -----

  predicate LowerHex(value: Text) {
    forall i :: 0 <= i < |value| ==> Nibble(value[i]).Some?
  }

  lemma {:induction false} PairsDecode(value: Text)
    requires |value| % 2 == 0
    ensures DecodePairs(value).Some? <==> LowerHex(value)
  {
    if value != [] {
      PairsDecode(value[2..]);
      if LowerHex(value[2..]) && Nibble(value[0]).Some? && Nibble(value[1]).Some? {
        forall i | 0 <= i < |value| ensures Nibble(value[i]).Some? {
          assert i >= 2 ==> value[i] == value[2..][i - 2];
        }
      }
      if LowerHex(value) {
        assert forall i :: 0 <= i < |value[2..]| ==> value[2..][i] == value[i + 2];
      }
    }
  }

  /** "0123456789abcdef" */
  const HEX: string := "0123456789abcdef"

  lemma HexDigitIs(n: byte)
    requires n < 16
    ensures HexDigit(n) == HEX[n] as int
  {
    if n < 8 {
      assert HEX[n] == "01234567"[n];
    } else {
      assert HEX[n] == "89abcdef"[n - 8];
    }
  }

  predicate IsHexDigit(c: byte) {
    exists n :: 0 <= n < 16 && c == HEX[n] as int
  }

  lemma NibbleIs(c: byte)
    ensures Nibble(c).Some? <==> IsHexDigit(c)
  {
    if Nibble(c).Some? {
      HexDigitIs(Nibble(c).value);
    }
    if n :| 0 <= n < 16 && c == HEX[n] as int {
      HexDigitIs(n);
    }
  }

  /** The strings that decode are those of at least 16 lower-case hex digits, an even number. */
  lemma HexAccepts(value: Text)
    ensures DecodeHex(value).Ok? <==>
            |value| >= 16 && |value| % 2 == 0 && forall i :: 0 <= i < |value| ==> IsHexDigit(value[i])
  {
    if |value| % 2 == 0 {
      PairsDecode(value);
    }
    forall i | 0 <= i < |value| ensures Nibble(value[i]).Some? <==> IsHexDigit(value[i]) {
      NibbleIs(value[i]);
    }
  }

  lemma {:induction false} HexOfAt(bytes: seq<byte>, k: nat)
    requires k < |bytes|
    ensures |HexOf(bytes)| == 2 * |bytes|
    ensures HexOf(bytes)[2 * k] == HexDigit(bytes[k] / 16) && HexOf(bytes)[2 * k + 1] == HexDigit(bytes[k] % 16)
  {
    if k > 0 {
      HexOfAt(bytes[1..], k - 1);
      assert HexOf(bytes)[2 * k] == HexOf(bytes[1..])[2 * (k - 1)];
    } else if |bytes| > 1 {
      HexOfAt(bytes[1..], 0);
    }
  }

  /** Every byte is spelled by two digits, the high one first. */
  lemma HexSays(value: Text, k: nat)
    requires DecodeHex(value).Ok? && k < |DecodeHex(value).value|
    ensures var b := DecodeHex(value).value[k];
            2 * k + 1 < |value| && value[2 * k] == HEX[b / 16] as int && value[2 * k + 1] == HEX[b % 16] as int
  {
    var bytes := DecodeHex(value).value;
    HexOfPairs(value);
    HexOfAt(bytes, k);
    HexDigitIs(bytes[k] / 16);
    HexDigitIs(bytes[k] % 16);
  }

  // ----- what is written -----

  function TextBytes(t: Text): seq<byte> { ToLe(|t|, 4) + t }

  function Flag(b: bool): seq<byte> { if b then [1] else [0] }

  function AccountBytes(a: Account): seq<byte> {
    TextBytes(a.name) + TextBytes(a.address) + Flag(a.writable) + Flag(a.signer)
  }

  function ListBytes(accounts: seq<Account>): seq<byte> {
    if accounts == [] then [] else AccountBytes(accounts[0]) + ListBytes(accounts[1..])
  }

  function CountedBytes(accounts: seq<Account>): seq<byte> { ToLe(|accounts|, 4) + ListBytes(accounts) }

  function DataOf(i: Instruction): seq<byte> {
    match DecodeHex(i.dataHex) case Ok(data) => data case Err(_) => []
  }

  function NameBytes(i: Instruction): seq<byte> {
    TextBytes(i.specificationKey) + TextBytes(i.program) + TextBytes(i.programId) + TextBytes(i.instructionName)
  }

  function InstructionBytes(i: Instruction): seq<byte> {
    NameBytes(i) + TextBytes(DataOf(i)) + CountedBytes(i.accounts) + CountedBytes(i.remainingAccounts)
  }

  function HookBytes(hooks: seq<Instruction>): seq<byte> {
    if hooks == [] then [] else InstructionBytes(hooks[0]) + HookBytes(hooks[1..])
  }

  function IntentBytes(i: Intent): seq<byte> {
    TextBytes(i.intentId) + TextBytes(i.protocolRevision) + TextBytes(i.action) + TextBytes(i.jobKind)
    + TextBytes(i.market) + TextBytes(i.target)
  }

  function HeadBytes(e: Envelope): seq<byte> {
    [e.schemaVersion, e.intent.schemaVersion] + IntentBytes(e.intent)
    + ToLe(e.intent.observedSlot, 8) + TextBytes(e.intent.expectedStateHash)
  }

  function EnvelopeBytes(e: Envelope): seq<byte> {
    HeadBytes(e) + InstructionBytes(e.primary) + (ToLe(|e.hooks|, 4) + HookBytes(e.hooks))
  }

  // ----- when writing succeeds -----

  const LIMIT: nat := 0x1_0000_0000

  predicate Fits(t: Text) { |t| < LIMIT }

  predicate AccountFits(a: Account) { Fits(a.name) && Fits(a.address) }

  predicate ListFits(accounts: seq<Account>) {
    |accounts| < LIMIT && forall k :: 0 <= k < |accounts| ==> AccountFits(accounts[k])
  }

  predicate NamesFit(i: Instruction) {
    Fits(i.specificationKey) && Fits(i.program) && Fits(i.programId) && Fits(i.instructionName)
  }

  /** The error of writing an instruction: the first field that cannot be written decides. */
  function InstructionError(i: Instruction): Option<WriteError> {
    if !NamesFit(i) then Some(ParityMismatch)
    else if DecodeHex(i.dataHex).Err? then Some(InvalidDataHex)
    else if !Fits(DataOf(i)) || !ListFits(i.accounts) || !ListFits(i.remainingAccounts) then Some(ParityMismatch)
    else None
  }

  function HooksError(hooks: seq<Instruction>): Option<WriteError> {
    if hooks == [] then None
    else match InstructionError(hooks[0])
      case Some(e) => Some(e)
      case None => HooksError(hooks[1..])
  }

  predicate IntentFits(i: Intent) {
    Fits(i.intentId) && Fits(i.protocolRevision) && Fits(i.action) && Fits(i.jobKind) && Fits(i.market)
    && Fits(i.target)
  }

  function EnvelopeError(e: Envelope): Option<WriteError> {
    if !IntentFits(e.intent) || !Fits(e.intent.expectedStateHash) then Some(ParityMismatch)
    else match InstructionError(e.primary)
      case Some(error) => Some(error)
      case None => if |e.hooks| >= LIMIT then Some(ParityMismatch) else HooksError(e.hooks)
  }

  type Canonical = Result<seq<byte>, WriteError>

  predicate Short(t: Text) { |t| < 0x1_0000_0000 }

  predicate ListWritable(accounts: seq<Account>) {
    |accounts| < 0x1_0000_0000
    && forall k :: 0 <= k < |accounts| ==> Short(accounts[k].name) && Short(accounts[k].address)
  }

  predicate Writable(i: Instruction) {
    && Short(i.specificationKey) && Short(i.program) && Short(i.programId) && Short(i.instructionName)
    && DecodeHex(i.dataHex).Ok? && Short(DecodeHex(i.dataHex).value)
    && ListWritable(i.accounts) && ListWritable(i.remainingAccounts)
  }

  lemma InstructionWritable(i: Instruction)
    ensures InstructionError(i).None? <==> Writable(i)
    ensures InstructionError(i) == Some(InvalidDataHex) ==> DecodeHex(i.dataHex).Err?
  {
  }

  lemma {:induction false} HooksWritable(hooks: seq<Instruction>)
    ensures HooksError(hooks).None? <==> forall k :: 0 <= k < |hooks| ==> Writable(hooks[k])
    ensures HooksError(hooks) == Some(InvalidDataHex) ==>
              exists k :: 0 <= k < |hooks| && DecodeHex(hooks[k].dataHex).Err?
  {
    if hooks != [] {
      HooksWritable(hooks[1..]);
      InstructionWritable(hooks[0]);
      assert forall k :: 0 < k < |hooks| ==> hooks[k] == hooks[1..][k - 1];
    }
  }

  /** An envelope has canonical bytes exactly if every text and list in it has a 32-bit length and
      every instruction's data is hex. */
  lemma WritableExactly(e: Envelope)
    ensures CanonicalOf(e).Ok? <==>
            && Short(e.intent.intentId) && Short(e.intent.protocolRevision) && Short(e.intent.action)
            && Short(e.intent.jobKind) && Short(e.intent.market) && Short(e.intent.target)
            && Short(e.intent.expectedStateHash)
            && Writable(e.primary) && |e.hooks| < 0x1_0000_0000
            && forall k :: 0 <= k < |e.hooks| ==> Writable(e.hooks[k])
    ensures CanonicalOf(e) == Err(InvalidDataHex) ==>
              DecodeHex(e.primary.dataHex).Err?
              || exists k :: 0 <= k < |e.hooks| && DecodeHex(e.hooks[k].dataHex).Err?
  {
    InstructionWritable(e.primary);
    HooksWritable(e.hooks);
  }

  function CanonicalOf(e: Envelope): Canonical {
    match EnvelopeError(e)
      case Some(error) => Err(error)
      case None => Ok(EnvelopeBytes(e))
  }

  // ----- no two envelopes share their bytes -----

  lemma SplitAt(a: seq<byte>, s: seq<byte>, b: seq<byte>, t: seq<byte>)
    requires a + s == b + t && |a| == |b|
    ensures a == b && s == t
  {
    assert a == (a + s)[..|a|] && s == (a + s)[|a|..];
    assert b == (b + t)[..|b|] && t == (b + t)[|b|..];
  }

  lemma CountPrefix(x: nat, s: seq<byte>, y: nat, t: seq<byte>)
    requires x < LIMIT && y < LIMIT && ToLe(x, 4) + s == ToLe(y, 4) + t
    ensures x == y && s == t
  {
    SplitAt(ToLe(x, 4), s, ToLe(y, 4), t);
    LeFits(x, 4);
    LeFits(y, 4);
  }

  /** A written text can be read off the front of anything that follows it. */
  lemma TextPrefix(a: Text, s: seq<byte>, b: Text, t: seq<byte>)
    requires Fits(a) && Fits(b) && TextBytes(a) + s == TextBytes(b) + t
    ensures a == b && s == t
  {
    Regroup(ToLe(|a|, 4), a, [], s);
    Regroup(ToLe(|b|, 4), b, [], t);
    CountPrefix(|a|, a + s, |b|, b + t);
    SplitAt(a, s, b, t);
  }

  lemma Regroup(x: seq<byte>, y: seq<byte>, z: seq<byte>, s: seq<byte>)
    ensures x + y + z + s == x + (y + (z + s))
    ensures x + y + s == x + (y + s)
  {
  }

  lemma FlagsPrefix(w: bool, g: bool, s: seq<byte>, v: bool, f: bool, t: seq<byte>)
    requires Flag(w) + Flag(g) + s == Flag(v) + Flag(f) + t
    ensures w == v && g == f && s == t
  {
    SplitAt(Flag(w) + Flag(g), s, Flag(v) + Flag(f), t);
    SplitAt(Flag(w), Flag(g), Flag(v), Flag(f));
    assert Flag(w)[0] == Flag(v)[0] && Flag(g)[0] == Flag(f)[0];
  }

  function AccountThen(a: Account, s: seq<byte>): seq<byte> {
    TextBytes(a.name) + (TextBytes(a.address) + (Flag(a.writable) + Flag(a.signer) + s))
  }

  lemma AccountGrouped(a: Account, s: seq<byte>)
    ensures AccountBytes(a) + s == AccountThen(a, s)
  {
    var x, y, v, w := TextBytes(a.name), TextBytes(a.address), Flag(a.writable), Flag(a.signer);
    assert x + y + v + w == x + y + (v + w);
    Regroup(x, y, v + w, s);
  }

  lemma AccountPrefix(a: Account, s: seq<byte>, b: Account, t: seq<byte>)
    requires AccountFits(a) && AccountFits(b) && AccountBytes(a) + s == AccountBytes(b) + t
    ensures a == b && s == t
  {
    AccountGrouped(a, s);
    AccountGrouped(b, t);
    var sa, tb := Flag(a.writable) + Flag(a.signer) + s, Flag(b.writable) + Flag(b.signer) + t;
    TextPrefix(a.name, TextBytes(a.address) + sa, b.name, TextBytes(b.address) + tb);
    TextPrefix(a.address, sa, b.address, tb);
    FlagsPrefix(a.writable, a.signer, s, b.writable, b.signer, t);
  }

  lemma {:induction false} ListPrefix(a: seq<Account>, s: seq<byte>, b: seq<Account>, t: seq<byte>)
    requires |a| == |b| && ListFits(a) && ListFits(b) && ListBytes(a) + s == ListBytes(b) + t
    ensures a == b && s == t
  {
    if a == [] {
      assert ListBytes(a) + s == s && ListBytes(b) + t == t;
    } else {
      Regroup(AccountBytes(a[0]), ListBytes(a[1..]), [], s);
      Regroup(AccountBytes(b[0]), ListBytes(b[1..]), [], t);
      AccountPrefix(a[0], ListBytes(a[1..]) + s, b[0], ListBytes(b[1..]) + t);
      ListPrefix(a[1..], s, b[1..], t);
      assert a == [a[0]] + a[1..] && b == [b[0]] + b[1..];
    }
  }

  lemma CountedPrefix(a: seq<Account>, s: seq<byte>, b: seq<Account>, t: seq<byte>)
    requires ListFits(a) && ListFits(b) && CountedBytes(a) + s == CountedBytes(b) + t
    ensures a == b && s == t
  {
    Regroup(ToLe(|a|, 4), ListBytes(a), [], s);
    Regroup(ToLe(|b|, 4), ListBytes(b), [], t);
    CountPrefix(|a|, ListBytes(a) + s, |b|, ListBytes(b) + t);
    ListPrefix(a, s, b, t);
  }

  lemma RegroupFour(x: seq<byte>, y: seq<byte>, z: seq<byte>, w: seq<byte>, s: seq<byte>)
    ensures x + y + z + w + s == x + (y + (z + (w + s)))
  {
  }

  lemma Appended(start: seq<byte>, x: seq<byte>, y: seq<byte>, z: seq<byte>, w: seq<byte>)
    ensures start + x + y + z + w == start + (x + y + z + w)
  {
  }

  lemma NextHook(hooks: seq<Instruction>, k: nat)
    requires k < |hooks|
    ensures HookBytes(hooks[k..]) == InstructionBytes(hooks[k]) + HookBytes(hooks[k + 1..])
    ensures HooksError(hooks[k..]) ==
            match InstructionError(hooks[k]) case Some(e) => Some(e) case None => HooksError(hooks[k + 1..])
  {
    assert hooks[k..][1..] == hooks[k + 1..];
  }

  lemma NextAccount(accounts: seq<Account>, k: nat)
    requires k < |accounts|
    ensures ListBytes(accounts[k..]) == AccountBytes(accounts[k]) + ListBytes(accounts[k + 1..])
  {
    assert accounts[k..][1..] == accounts[k + 1..];
  }

  lemma NamesPrefix(a: Instruction, s: seq<byte>, b: Instruction, t: seq<byte>)
    requires NamesFit(a) && NamesFit(b) && NameBytes(a) + s == NameBytes(b) + t
    ensures a.specificationKey == b.specificationKey && a.program == b.program
    ensures a.programId == b.programId && a.instructionName == b.instructionName && s == t
  {
    var ax, ay, az, aw :=
      TextBytes(a.specificationKey), TextBytes(a.program), TextBytes(a.programId), TextBytes(a.instructionName);
    var cx, cy, cz, cw :=
      TextBytes(b.specificationKey), TextBytes(b.program), TextBytes(b.programId), TextBytes(b.instructionName);
    RegroupFour(ax, ay, az, aw, s);
    RegroupFour(cx, cy, cz, cw, t);
    TextPrefix(a.specificationKey, ay + (az + (aw + s)), b.specificationKey, cy + (cz + (cw + t)));
    TextPrefix(a.program, az + (aw + s), b.program, cz + (cw + t));
    TextPrefix(a.programId, aw + s, b.programId, cw + t);
    TextPrefix(a.instructionName, s, b.instructionName, t);
  }

  lemma InstructionPrefix(a: Instruction, s: seq<byte>, b: Instruction, t: seq<byte>)
    requires InstructionError(a).None? && InstructionError(b).None?
    requires InstructionBytes(a) + s == InstructionBytes(b) + t
    ensures a == b && s == t
  {
    var ax, ay, az, aw := NameBytes(a), TextBytes(DataOf(a)), CountedBytes(a.accounts),
        CountedBytes(a.remainingAccounts);
    var cx, cy, cz, cw := NameBytes(b), TextBytes(DataOf(b)), CountedBytes(b.accounts),
        CountedBytes(b.remainingAccounts);
    RegroupFour(ax, ay, az, aw, s);
    RegroupFour(cx, cy, cz, cw, t);
    NamesPrefix(a, ay + (az + (aw + s)), b, cy + (cz + (cw + t)));
    TextPrefix(DataOf(a), az + (aw + s), DataOf(b), cz + (cw + t));
    HexIsInjective(a.dataHex, b.dataHex);
    CountedPrefix(a.accounts, aw + s, b.accounts, cw + t);
    CountedPrefix(a.remainingAccounts, s, b.remainingAccounts, t);
  }

  lemma {:induction false} HooksPrefix(a: seq<Instruction>, b: seq<Instruction>)
    requires |a| == |b| && HooksError(a).None? && HooksError(b).None? && HookBytes(a) == HookBytes(b)
    ensures a == b
  {
    if a != [] {
      InstructionPrefix(a[0], HookBytes(a[1..]), b[0], HookBytes(b[1..]));
      HooksPrefix(a[1..], b[1..]);
      assert a == [a[0]] + a[1..] && b == [b[0]] + b[1..];
    }
  }

  lemma IntentPrefix(a: Intent, s: seq<byte>, b: Intent, t: seq<byte>)
    requires IntentFits(a) && IntentFits(b) && IntentBytes(a) + s == IntentBytes(b) + t
    ensures a.intentId == b.intentId && a.protocolRevision == b.protocolRevision && a.action == b.action
    ensures a.jobKind == b.jobKind && a.market == b.market && a.target == b.target && s == t
  {
    var a1, a2, a3, a4, a5, a6 := TextBytes(a.intentId), TextBytes(a.protocolRevision), TextBytes(a.action),
      TextBytes(a.jobKind), TextBytes(a.market), TextBytes(a.target);
    var b1, b2, b3, b4, b5, b6 := TextBytes(b.intentId), TextBytes(b.protocolRevision), TextBytes(b.action),
      TextBytes(b.jobKind), TextBytes(b.market), TextBytes(b.target);
    Regroup(a1 + a2 + a3 + a4, a5, a6, s);
    Regroup(b1 + b2 + b3 + b4, b5, b6, t);
    RegroupFour(a1, a2, a3, a4, a5 + (a6 + s));
    RegroupFour(b1, b2, b3, b4, b5 + (b6 + t));
    TextPrefix(a.intentId, a2 + (a3 + (a4 + (a5 + (a6 + s)))), b.intentId, b2 + (b3 + (b4 + (b5 + (b6 + t)))));
    TextPrefix(a.protocolRevision, a3 + (a4 + (a5 + (a6 + s))), b.protocolRevision, b3 + (b4 + (b5 + (b6 + t))));
    TextPrefix(a.action, a4 + (a5 + (a6 + s)), b.action, b4 + (b5 + (b6 + t)));
    TextPrefix(a.jobKind, a5 + (a6 + s), b.jobKind, b5 + (b6 + t));
    TextPrefix(a.market, a6 + s, b.market, b6 + t);
    TextPrefix(a.target, s, b.target, t);
  }

  function AfterIntent(e: Envelope): seq<byte> {
    ToLe(e.intent.observedSlot, 8)
    + (TextBytes(e.intent.expectedStateHash) + (InstructionBytes(e.primary)
                                                + (ToLe(|e.hooks|, 4) + HookBytes(e.hooks))))
  }

  lemma EnvelopeGrouped(e: Envelope)
    ensures EnvelopeBytes(e) == [e.schemaVersion, e.intent.schemaVersion] + (IntentBytes(e.intent) + AfterIntent(e))
  {
    var versions, names, slot := [e.schemaVersion, e.intent.schemaVersion], IntentBytes(e.intent),
        ToLe(e.intent.observedSlot, 8);
    var hash, primary, count, hooks :=
      TextBytes(e.intent.expectedStateHash), InstructionBytes(e.primary), ToLe(|e.hooks|, 4), HookBytes(e.hooks);
    Regroup(versions + names + slot + hash, primary, [], count + hooks);
    RegroupFour(versions, names, slot, hash, primary + (count + hooks));
  }

  lemma AfterIntentIsInjective(a: Envelope, b: Envelope)
    requires EnvelopeError(a).None? && EnvelopeError(b).None? && AfterIntent(a) == AfterIntent(b)
    ensures a.intent.observedSlot == b.intent.observedSlot
    ensures a.intent.expectedStateHash == b.intent.expectedStateHash
    ensures a.primary == b.primary && a.hooks == b.hooks
  {
    var ha, hb := ToLe(|a.hooks|, 4) + HookBytes(a.hooks), ToLe(|b.hooks|, 4) + HookBytes(b.hooks);
    var pa, pb := InstructionBytes(a.primary) + ha, InstructionBytes(b.primary) + hb;
    var ta, tb := TextBytes(a.intent.expectedStateHash) + pa, TextBytes(b.intent.expectedStateHash) + pb;
    SplitAt(ToLe(a.intent.observedSlot, 8), ta, ToLe(b.intent.observedSlot, 8), tb);
    LeFits(a.intent.observedSlot, 8);
    LeFits(b.intent.observedSlot, 8);
    TextPrefix(a.intent.expectedStateHash, pa, b.intent.expectedStateHash, pb);
    InstructionPrefix(a.primary, ha, b.primary, hb);
    CountPrefix(|a.hooks|, HookBytes(a.hooks), |b.hooks|, HookBytes(b.hooks));
    HooksPrefix(a.hooks, b.hooks);
  }

  lemma SameBytesSameEnvelope(a: Envelope, b: Envelope)
    requires EnvelopeError(a).None? && EnvelopeError(b).None? && EnvelopeBytes(a) == EnvelopeBytes(b)
    ensures a == b.(paritySha256 := a.paritySha256)
  {
    EnvelopeGrouped(a);
    EnvelopeGrouped(b);
    var va, vb := [a.schemaVersion, a.intent.schemaVersion], [b.schemaVersion, b.intent.schemaVersion];
    SplitAt(va, IntentBytes(a.intent) + AfterIntent(a), vb, IntentBytes(b.intent) + AfterIntent(b));
    assert va[0] == vb[0] && va[1] == vb[1];
    IntentPrefix(a.intent, AfterIntent(a), b.intent, AfterIntent(b));
    AfterIntentIsInjective(a, b);
  }

  /** Two envelopes write the same bytes exactly if they are the same envelope, up to the
      stored digest.  Unwritable envelopes have no bytes to share. */
  lemma CanonicalIsInjective(a: Envelope, b: Envelope)
    ensures CanonicalOf(a).Ok? && CanonicalOf(b).Ok? ==>
              (CanonicalOf(a) == CanonicalOf(b) <==> a == b.(paritySha256 := a.paritySha256))
  {
    if CanonicalOf(a).Ok? && CanonicalOf(a) == CanonicalOf(b) {
      SameBytesSameEnvelope(a, b);
    }
    DigestIsNotWritten(b, a.paritySha256);
  }

  /** And the stored digest is never part of what is written. */
  lemma DigestIsNotWritten(e: Envelope, digest: Text)
    ensures CanonicalOf(e.(paritySha256 := digest)) == CanonicalOf(e)
  {
  }
}
